/** What becomes of each commit (ime-unix-service/src/training/commit_store.cpp:207-251 and 362-369), told entry by entry
    and without the functions that do it. */
module CommitFates {
  import opened Wrappers
  import opened Sequences
  import opened Messages
  import opened CommitStaging

  /** The first staged commit of an event. */
  ghost predicate FirstStaged(s: Store, e: Entry, event: Id) {
    e.commit.eventId == event &&
    exists k :: 0 <= k < |s.staged| && s.staged[k] == e && forall i :: 0 <= i < k ==> s.staged[i].commit.eventId != event
  }

  ghost predicate StaysStaged(s: Store, n: Store, e: Entry) {
    e in n.staged && e.ticket !in n.written && e.ticket !in n.discarded && e.ticket !in n.dropped
  }

  ghost predicate IsWritten(s: Store, n: Store, e: Entry) {
    e !in n.staged && e.ticket in n.written && e.commit.eventId in n.database
  }

  ghost predicate IsDiscarded(n: Store, e: Entry) {
    e !in n.staged && e.ticket in n.discarded && e.ticket !in n.written
  }

  ghost predicate IsDropped(n: Store, e: Entry) {
    e !in n.staged && e.ticket in n.dropped && e.ticket !in n.written
  }

  // ----- withdrawing -----

  lemma WithoutOne(entries: seq<Entry>, k: nat, e: Entry)
    requires Ordered(entries) && k < |entries|
    ensures var rest := entries[..k] + entries[k + 1..];
      e in rest <==> e in entries && e != entries[k]
  {
    RemovedOrdered(entries, k);
    if e in entries && e != entries[k] {
      var i :| 0 <= i < |entries| && entries[i] == e;
      var rest := entries[..k] + entries[k + 1..];
      assert rest[if i < k then i else i - 1] == e;
    }
  }

  /** Withdrawing an event takes its first staged commit out and marks it, and touches nothing else. */
  lemma WithdrawalTakesFirst(s: Store, event: Id, e: Entry)
    requires Valid(s) && FirstStaged(s, e, event)
    ensures var (n, found) := Discard(s, event);
      && found && IsDiscarded(n, e) && n.discarded == s.discarded + {e.ticket}
      && (forall x :: x in n.staged <==> x in s.staged && x != e)
      && n == s.(staged := n.staged, discarded := n.discarded)
  {
    hide Stored, WrittenInOrder;
    var k := FirstOf(s.staged, event);
    assert s.staged[k] == e;
    forall x ensures x in Discard(s, event).0.staged <==> x in s.staged && x != e {
      WithoutOne(s.staged, k, x);
    }
    StagedIsNotWritten(s, e);
  }

  lemma StagedIsNotWritten(s: Store, e: Entry)
    requires Conserved(s) && e in s.staged
    ensures e.ticket !in s.written && e.ticket !in s.discarded && e.ticket !in s.dropped
  {
    assert e.ticket in TicketSet(s.staged);
    assert e.ticket in s.written ==> e.ticket in WrittenSet(s);
  }

  /** Withdrawing an event that is not staged changes nothing. */
  lemma WithdrawalOfNothing(s: Store, event: Id)
    requires forall x :: x in s.staged ==> x.commit.eventId != event
    ensures Discard(s, event) == (s, false)
  {
  }

  lemma WithdrawalLeaves(s: Store, event: Id, e: Entry)
    requires Valid(s) && e in s.staged && !FirstStaged(s, e, event)
    ensures StaysStaged(s, Discard(s, event).0, e)
  {
    hide Stored, WrittenInOrder;
    StagedIsNotWritten(s, e);
    var k := FirstOf(s.staged, event);
    if k < |s.staged| {
      WithoutOne(s.staged, k, e);
      OnePerTicket(s, s.staged[k], e);
    }
  }

  lemma OnePerTicket(s: Store, a: Entry, b: Entry)
    requires StagedWell(s) && a in s.staged && b in s.staged
    ensures a.ticket == b.ticket ==> a == b
  {
    var i :| 0 <= i < |s.staged| && s.staged[i] == a;
    var j :| 0 <= j < |s.staged| && s.staged[j] == b;
    if i < j {
      assert s.staged[i].ticket < s.staged[j].ticket;
    } else if j < i {
      assert s.staged[j].ticket < s.staged[i].ticket;
    }
  }

  // ----- settling, dropping -----

  lemma SettledFate(s: Store, rule: Rule, e: Entry)
    requires Valid(s) && e in s.staged
    ensures var n := Settle(s, rule);
      if Due(e, rule) then IsWritten(s, n, e) else StaysStaged(s, n, e)
  {
    hide Ordered, WrittenInOrder, Stored, Due;
    StagedIsNotWritten(s, e);
    SettleMoves(s, rule, e);
    SettledElsewhere(s, rule);
    if Due(e, rule) {
      SplitCovers(s.staged, rule);
      DueIsStored(s.database, DueEntries(s.staged, rule), e);
    }
  }

  lemma SettledElsewhere(s: Store, rule: Rule)
    ensures Settle(s, rule).discarded == s.discarded && Settle(s, rule).dropped == s.dropped && Settle(s, rule).accepted == s.accepted
  {
  }

  lemma {:induction false} DueIsStored(database: map<Id, Commit>, entries: seq<Entry>, e: Entry)
    requires e in entries
    ensures e.commit.eventId in InsertAll(database, entries)
  {
    FirstRecordWins(database, entries, e.commit.eventId);
    var k :| 0 <= k < |entries| && entries[k] == e;
  }

  lemma DroppedFate(s: Store, e: Entry)
    requires Valid(s) && e in s.staged
    ensures IsDropped(DropStaged(s), e) && DropStaged(s).staged == []
  {
    StagedIsNotWritten(s, e);
    assert e.ticket in TicketSet(s.staged);
  }

  // ----- one operation -----

  /** Whether an accepted commit is taken up: recording is on, and less than 256 are staged when the earlier commits of
      its source are written. */
  ghost predicate TakenUp(s: Store, commit: Commit) {
    && Acceptable(commit) && s.configured && s.enabled
    && exists others: seq<Entry> :: |others| < 256 && Ordered(others) &&
         forall e :: e in others <==> e in s.staged && e.commit.sourceId != commit.sourceId
  }

  lemma KeptAreOthers(s: Store, commit: Commit)
    requires Valid(s)
    ensures var kept := Settle(s, OfSource(commit.sourceId)).staged;
      Ordered(kept) && forall e :: e in kept <==> e in s.staged && e.commit.sourceId != commit.sourceId
  {
    hide Stored, WrittenInOrder, Conserved, Ordered;
    SettleKeeps(s, OfSource(commit.sourceId));
    SplitCovers(s.staged, OfSource(commit.sourceId));
  }

  /** Two ordered lists of the same entries have the same length. */
  lemma SameLength(a: seq<Entry>, b: seq<Entry>)
    requires Ordered(a) && Ordered(b) && forall e :: e in a <==> e in b
    ensures |a| == |b|
  {
    AsManyAsTickets(a);
    AsManyAsTickets(b);
    forall t: nat ensures t in TicketSet(a) <==> t in TicketSet(b) {
      if t in TicketSet(a) {
        var i :| 0 <= i < |a| && a[i].ticket == t;
        assert a[i] in b;
      }
      if t in TicketSet(b) {
        var i :| 0 <= i < |b| && b[i].ticket == t;
        assert b[i] in a;
      }
    }
    assert TicketSet(a) == TicketSet(b);
  }

  lemma {:induction false} AsManyAsTickets(entries: seq<Entry>)
    requires Ordered(entries)
    ensures |TicketSet(entries)| == |entries|
    decreases |entries|
  {
    if entries == [] {
      assert TicketSet(entries) == {};
    } else {
      var last := |entries| - 1;
      RemovedOrdered(entries, last);
      assert entries[..last] + entries[last + 1..] == entries[..last];
      AsManyAsTickets(entries[..last]);
    }
  }

  /** Recording: an unacceptable commit is an error, and one that is not taken up leaves no trace of itself; one that is
      taken up is staged last, with the time of the call. */
  lemma RecordStages(s: Store, commit: Commit, now: int)
    requires Valid(s)
    ensures var (n, r) := Record(s, commit, now);
      && (r.None? <==> !Acceptable(commit))
      && (r == Some(true) <==> TakenUp(s, commit))
      && if TakenUp(s, commit) then
           && n.accepted == s.accepted + [commit] && n.staged != []
           && n.staged[|n.staged| - 1] == Entry(|s.accepted|, commit, now)
           && forall e :: e in n.staged && e != Entry(|s.accepted|, commit, now) ==> e in s.staged && e.commit.sourceId != commit.sourceId
         else n.accepted == s.accepted && (forall e :: e in n.staged ==> e in s.staged) && (!(Acceptable(commit) && Recording(s)) ==> n == s)
  {
    hide Acceptable, Valid, Ordered, Settle;
    if Acceptable(commit) && Recording(s) {
      var kept := Settle(s, OfSource(commit.sourceId)).staged;
      KeptAreOthers(s, commit);
      SettledElsewhere(s, OfSource(commit.sourceId));
      forall others: seq<Entry> | Ordered(others) && (forall e :: e in others <==> e in s.staged && e.commit.sourceId != commit.sourceId)
        ensures |others| == |kept|
      {
        SameLength(others, kept);
      }
    }
  }

  /** The commit is acceptable, recording is on and it is of the same source. */
  predicate Supersedes(s: Store, commit: Commit, e: Entry) {
    Acceptable(commit) && s.configured && s.enabled && commit.sourceId == e.commit.sourceId
  }

  /** What an operation does to a staged commit. */
  ghost predicate Fate(s: Store, op: Operation, n: Store, e: Entry) {
    match op
    case Recorded(commit, _) => if Supersedes(s, commit, e) then IsWritten(s, n, e) else StaysStaged(s, n, e)
    case Withdrawn(event) => if FirstStaged(s, e, event) then IsDiscarded(n, e) else StaysStaged(s, n, e)
    case Flushed(all, now) => if all || now - e.queuedAt >= 10 then IsWritten(s, n, e) else StaysStaged(s, n, e)
    case Switched(on) => if on then StaysStaged(s, n, e) else IsDropped(n, e)
    case Configured => StaysStaged(s, n, e)
    case Cleared => IsDropped(n, e)
  }

  lemma RecordFate(s: Store, commit: Commit, now: int, e: Entry)
    requires Valid(s) && e in s.staged
    ensures Fate(s, Recorded(commit, now), Record(s, commit, now).0, e)
  {
    hide Acceptable, Ordered, WrittenInOrder, Stored, Settle;
    StagedIsNotWritten(s, e);
    if Acceptable(commit) && Recording(s) {
      SettledFate(s, OfSource(commit.sourceId), e);
    }
  }

  /** Every operation does to every staged commit exactly what is due to it. */
  lemma EveryFate(s: Store, op: Operation, e: Entry)
    requires Valid(s) && e in s.staged
    ensures Fate(s, op, After(s, op), e)
  {
    hide Acceptable, Ordered, WrittenInOrder, Stored, Settle, Record, Discard, DropStaged;
    StagedIsNotWritten(s, e);
    match op
    case Recorded(commit, at) => RecordFate(s, commit, at, e);
    case Withdrawn(event) =>
      if FirstStaged(s, e, event) {
        WithdrawalTakesFirst(s, event, e);
      } else {
        WithdrawalLeaves(s, event, e);
      }
    case Flushed(all, now) => SettledFate(s, if all then All else Elapsed(now), e);
    case Switched(on) => DroppedFate(s, e);
    case Configured =>
    case Cleared => DroppedFate(s, e);
  }

  /** Recording can be turned on only with a password, which can be set once; turning it off and resetting leave nothing
      staged, and resetting leaves no record and no password. */
  lemma SwitchesDo(s: Store)
    requires Valid(s)
    ensures var (n, ok) := SetEnabled(s, true);
      ok == s.configured && n.staged == s.staged && n.database == s.database && n.configured == s.configured &&
      (s.configured ==> n.enabled) && (!s.configured ==> n == s)
    ensures var (n, ok) := SetEnabled(s, false);
      ok && n.staged == [] && n.database == s.database && n.configured == s.configured && (s.configured ==> !n.enabled)
    ensures var (n, ok) := ConfigurePassword(s);
      ok == !s.configured && n.configured && n.database == s.database && (ok ==> n.enabled && n.staged == []) && (!ok ==> n == s)
    ensures var n := ResetData(s);
      n.staged == [] && n.database == map[] && !n.configured && !n.enabled
  {
  }

  // ----- runs -----

  /** Over every run: a commit that was withdrawn while it was staged is never written. */
  lemma WithdrawnIsNeverWritten(states: seq<Store>, operations: seq<Operation>, i: nat, j: nat, event: Id, e: Entry)
    requires IsRun(states, operations) && i < |operations| && j < |states|
    requires operations[i] == Withdrawn(event) && FirstStaged(states[i], e, event)
    ensures e.ticket !in states[j].written
  {
    hide Valid, IsRun, Discard, FirstStaged;
    RunLength(states, operations);
    RunKeeps(states, operations, i, i);
    assert states[i + 1] == After(states[i], operations[i]) by {
      RunStep(states, operations, i);
    }
    WithdrawalTakesFirst(states[i], event, e);
    DiscardedIsNeverWritten(states, operations, i + 1, j, e.ticket);
  }

  lemma RunStep(states: seq<Store>, operations: seq<Operation>, i: nat)
    requires IsRun(states, operations) && i < |operations|
    ensures i + 1 < |states| && states[i + 1] == After(states[i], operations[i])
  {
  }

  lemma RunLength(states: seq<Store>, operations: seq<Operation>)
    requires IsRun(states, operations)
    ensures |states| == |operations| + 1
  {
  }
}
