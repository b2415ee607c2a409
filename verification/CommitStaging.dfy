/** Staging of recorded commits (ime-unix-service/src/training/commit_store.cpp) as a value: what each operation
    makes of the store, and what every run of them keeps. CommitStore.dfy proves the methods against it. */
module CommitStaging {
  import opened Wrappers
  import opened Sequences
  import opened Utf
  import opened Messages

  const WINDOW := 10
  const STAGED_LIMIT := 256

  // ----- which commits are accepted -----

  predicate EntryAcceptable(e: CommitEntry) {
    && e.literal == (e.reading == [])
    && (!e.literal ==> |e.reading| <= 64 && ValidUtf16(e.reading))
    && e.character != 0 && IsScalar(e.character)
  }

  function Characters(entries: seq<CommitEntry>): (cs: seq<int>)
    ensures |cs| == |entries| && forall i :: 0 <= i < |cs| ==> cs[i] == entries[i].character
  {
    seq(|entries|, i requires 0 <= i < |entries| => entries[i].character)
  }

  /** The answer is spelled by the entries, character by character. */
  predicate Spells(answer: Text, entries: seq<CommitEntry>) {
    DecodeUtf16(answer).Some? && DecodeUtf16(answer).value == Characters(entries)
  }

  predicate Acceptable(c: Commit) {
    && !IsZero(c.eventId) && !IsZero(c.sourceId)
    && 1 <= |c.entries| <= 1024 && 1 <= |c.answer| <= 1024 && |c.context| <= 4096
    && ValidUtf16(c.answer) && ValidUtf16(c.context)
    && (forall i :: 0 <= i < |c.entries| ==> EntryAcceptable(c.entries[i]))
    && (exists i :: 0 <= i < |c.entries| && !c.entries[i].literal)
    && Spells(c.answer, c.entries)
  }

  // ----- the store -----

  /** A staged commit with its place in the order of acceptance. */
  datatype Entry = Entry(ticket: nat, commit: Commit, queuedAt: int)

  /** The store with the history of the commits it accepted. A ticket is an index into `accepted`. */
  datatype Store = Store(
    staged: seq<Entry>,
    configured: bool,
    enabled: bool,
    database: map<Id, Commit>,
    accepted: seq<Commit>,
    written: seq<nat>,
    discarded: set<nat>,
    dropped: set<nat>,
    erased: nat)

  predicate Recording(s: Store) {
    s.configured && s.enabled
  }

  datatype Rule = All | Elapsed(now: int) | OfSource(source: Id)

  /** Whether a staged commit is to be written now. */
  predicate Due(e: Entry, rule: Rule) {
    match rule
    case All => true
    case Elapsed(now) => now - e.queuedAt >= WINDOW
    case OfSource(source) => e.commit.sourceId == source
  }

  function DueEntries(entries: seq<Entry>, rule: Rule): (r: seq<Entry>)
    ensures forall i :: 0 <= i < |r| ==> Due(r[i], rule) && r[i] in entries
  {
    if entries == [] then []
    else (if Due(entries[0], rule) then [entries[0]] else []) + DueEntries(entries[1..], rule)
  }

  function KeptEntries(entries: seq<Entry>, rule: Rule): (r: seq<Entry>)
    ensures forall i :: 0 <= i < |r| ==> !Due(r[i], rule) && r[i] in entries
    ensures |r| <= |entries|
  {
    if entries == [] then []
    else (if Due(entries[0], rule) then [] else [entries[0]]) + KeptEntries(entries[1..], rule)
  }

  function Tickets(entries: seq<Entry>): (r: seq<nat>)
    ensures |r| == |entries| && forall i :: 0 <= i < |r| ==> r[i] == entries[i].ticket
  {
    seq(|entries|, i requires 0 <= i < |entries| => entries[i].ticket)
  }

  function TicketSet(entries: seq<Entry>): (r: set<nat>)
    ensures forall t :: t in r <==> exists i :: 0 <= i < |entries| && entries[i].ticket == t
  {
    set i | 0 <= i < |entries| :: entries[i].ticket
  }

  /** The first record of an event stays. */
  function Insert(database: map<Id, Commit>, commit: Commit): map<Id, Commit> {
    if commit.eventId in database then database else database[commit.eventId := commit]
  }

  function InsertAll(database: map<Id, Commit>, entries: seq<Entry>): map<Id, Commit>
    decreases |entries|
  {
    if entries == [] then database else InsertAll(Insert(database, entries[0].commit), entries[1..])
  }

  /** Writing the staged commits that a rule selects. */
  function Settle(s: Store, rule: Rule): Store {
    s.(staged := KeptEntries(s.staged, rule), database := InsertAll(s.database, DueEntries(s.staged, rule)),
       written := s.written + Tickets(DueEntries(s.staged, rule)))
  }

  /** Whether the commit was staged; None is the exception that refuses an unacceptable one. */
  function Record(s: Store, commit: Commit, now: int): (Store, Option<bool>) {
    if !Acceptable(commit) then (s, None)
    else if !Recording(s) then (s, Some(false))
    else
      var settled := Settle(s, OfSource(commit.sourceId));
      if |settled.staged| >= STAGED_LIMIT then (settled, Some(false))
      else
        (settled.(staged := settled.staged + [Entry(|s.accepted|, commit, now)], accepted := s.accepted + [commit]), Some(true))
  }

  /** The index of the first staged commit of an event, the length when there is none. */
  function FirstOf(entries: seq<Entry>, event: Id): (n: nat)
    ensures n <= |entries| && (n < |entries| ==> entries[n].commit.eventId == event)
    ensures forall i :: 0 <= i < n ==> entries[i].commit.eventId != event
  {
    if entries == [] || entries[0].commit.eventId == event then 0 else 1 + FirstOf(entries[1..], event)
  }

  function Discard(s: Store, event: Id): (Store, bool) {
    var k := FirstOf(s.staged, event);
    if k == |s.staged| then (s, false)
    else (s.(staged := s.staged[..k] + s.staged[k + 1..], discarded := s.discarded + {s.staged[k].ticket}), true)
  }

  function Flush(s: Store, all: bool, now: int): Store {
    Settle(s, if all then All else Elapsed(now))
  }

  function DropStaged(s: Store): Store {
    s.(staged := [], dropped := s.dropped + TicketSet(s.staged))
  }

  /** Turning recording on needs a configured password; turning it off drops what is staged. */
  function SetEnabled(s: Store, on: bool): (Store, bool) {
    if on && !s.configured then (s, false)
    else
      var cleared := if on then s else DropStaged(s);
      (if s.configured then cleared.(enabled := on) else cleared, true)
  }

  function ConfigurePassword(s: Store): (Store, bool) {
    if s.configured then (s, false)
    else (DropStaged(s).(configured := true, enabled := true), true)
  }

  function ResetData(s: Store): Store {
    DropStaged(s).(database := map[], configured := false, enabled := false, erased := |s.written|)
  }

  datatype Operation =
    | Recorded(commit: Commit, at: int)
    | Withdrawn(event: Id)
    | Flushed(all: bool, now: int)
    | Switched(on: bool)
    | Configured
    | Cleared

  function After(s: Store, op: Operation): Store {
    match op
    case Recorded(commit, at) => Record(s, commit, at).0
    case Withdrawn(event) => Discard(s, event).0
    case Flushed(all, now) => Flush(s, all, now)
    case Switched(on) => SetEnabled(s, on).0
    case Configured => ConfigurePassword(s).0
    case Cleared => ResetData(s)
  }

  // ----- what every run keeps -----

  function WrittenSet(s: Store): set<nat> {
    set t | t in s.written
  }

  function Placed(s: Store): set<nat> {
    TicketSet(s.staged) + WrittenSet(s) + s.discarded + s.dropped
  }

  /** Every accepted commit is in exactly one of the four places. */
  ghost predicate Conserved(s: Store) {
    && (forall t: nat :: t in Placed(s) <==> t < |s.accepted|)
    && TicketSet(s.staged) !! WrittenSet(s) !! s.discarded !! s.dropped
  }

  /** In order of acceptance, and at most one for each source. */
  ghost predicate Ordered(entries: seq<Entry>) {
    && (forall i, j :: 0 <= i < j < |entries| ==> entries[i].ticket < entries[j].ticket)
    && (forall i, j :: 0 <= i < j < |entries| ==> entries[i].commit.sourceId != entries[j].commit.sourceId)
  }

  ghost predicate StagedWell(s: Store) {
    && |s.staged| <= STAGED_LIMIT && Ordered(s.staged)
    && (forall e :: e in s.staged ==> e.ticket < |s.accepted| && e.commit == s.accepted[e.ticket])
    && (!Recording(s) ==> s.staged == [])
  }

  /** The commits at two tickets come from one source. */
  predicate SameSource(s: Store, t: nat, u: nat) {
    t < |s.accepted| && u < |s.accepted| && s.accepted[t].sourceId == s.accepted[u].sourceId
  }

  /** Each source's commits are written in the order they were accepted, and before the one still staged. */
  ghost predicate WrittenInOrder(s: Store) {
    && (forall t :: t in s.written ==> t < |s.accepted|)
    && (forall i, j :: 0 <= i < j < |s.written| ==> s.written[i] != s.written[j])
    && (forall i, j :: 0 <= i < j < |s.written| && SameSource(s, s.written[i], s.written[j]) ==> s.written[i] < s.written[j])
    && (forall t, e :: t in s.written && e in s.staged && SameSource(s, t, e.ticket) ==> t < e.ticket)
  }

  /** Whatever was written since the last reset is in the database. */
  ghost predicate Stored(s: Store) {
    && s.erased <= |s.written|
    && (forall i :: s.erased <= i < |s.written| && s.written[i] < |s.accepted| ==> s.accepted[s.written[i]].eventId in s.database)
  }

  ghost predicate Valid(s: Store) {
    Conserved(s) && StagedWell(s) && WrittenInOrder(s) && Stored(s)
  }

  // ----- settling -----

  lemma {:induction false} SplitCovers(entries: seq<Entry>, rule: Rule)
    ensures forall e :: e in entries ==> if Due(e, rule) then e in DueEntries(entries, rule) else e in KeptEntries(entries, rule)
    ensures TicketSet(DueEntries(entries, rule)) + TicketSet(KeptEntries(entries, rule)) == TicketSet(entries)
  {
    hide Due;
    if entries != [] {
      SplitCovers(entries[1..], rule);
      var first, rest := entries[0], entries[1..];
      PushOne(entries, 0);
      Whole(entries);
      JoinedTickets([first], rest);
      JoinedTickets([first], DueEntries(rest, rule));
      JoinedTickets([first], KeptEntries(rest, rule));
      NothingAdded(DueEntries(rest, rule));
      NothingAdded(KeptEntries(rest, rule));
    }
  }

  lemma JoinedTickets(a: seq<Entry>, b: seq<Entry>)
    ensures TicketSet(a + b) == TicketSet(a) + TicketSet(b)
  {
    assert forall i :: 0 <= i < |a| ==> (a + b)[i] == a[i];
    assert forall i :: 0 <= i < |b| ==> (a + b)[|a| + i] == b[i];
  }

  ghost predicate Precedes(first: Entry, rest: seq<Entry>) {
    forall e :: e in rest ==> first.ticket < e.ticket && first.commit.sourceId != e.commit.sourceId
  }

  lemma OrderedFront(first: Entry, rest: seq<Entry>)
    requires Ordered(rest) && Precedes(first, rest)
    ensures Ordered([first] + rest)
  {
  }

  lemma OrderedTail(entries: seq<Entry>)
    requires Ordered(entries) && entries != []
    ensures Ordered(entries[1..]) && Precedes(entries[0], entries[1..])
  {
  }

  lemma {:induction false} SplitOrdered(entries: seq<Entry>, rule: Rule)
    requires Ordered(entries)
    ensures Ordered(DueEntries(entries, rule)) && Ordered(KeptEntries(entries, rule))
  {
    hide Due, Ordered;
    if entries != [] {
      OrderedTail(entries);
      SplitOrdered(entries[1..], rule);
      OrderedFront(entries[0], DueEntries(entries[1..], rule));
      OrderedFront(entries[0], KeptEntries(entries[1..], rule));
      NothingAdded(DueEntries(entries[1..], rule));
      NothingAdded(KeptEntries(entries[1..], rule));
    }
  }

  lemma OnePerSource(entries: seq<Entry>, e: Entry, f: Entry)
    requires Ordered(entries) && e in entries && f in entries && (e.ticket == f.ticket || e.commit.sourceId == f.commit.sourceId)
    ensures e == f
  {
  }

  lemma {:induction false} SplitDisjoint(entries: seq<Entry>, rule: Rule)
    requires Ordered(entries)
    ensures TicketSet(DueEntries(entries, rule)) !! TicketSet(KeptEntries(entries, rule))
  {
    hide Due, DueEntries, KeptEntries, Ordered;
    forall e, f | e in DueEntries(entries, rule) && f in KeptEntries(entries, rule) ensures e.ticket != f.ticket {
      if e.ticket == f.ticket {
        OnePerSource(entries, e, f);
      }
    }
  }

  lemma SettleConserves(s: Store, rule: Rule)
    requires Valid(s)
    ensures Conserved(Settle(s, rule))
  {
    hide Due, DueEntries, KeptEntries, Ordered, InsertAll, Stored;
    var due := DueEntries(s.staged, rule);
    SplitCovers(s.staged, rule);
    SplitDisjoint(s.staged, rule);
    assert WrittenSet(Settle(s, rule)) == WrittenSet(s) + TicketSet(due) by {
      forall t | t in TicketSet(due) ensures t in s.written + Tickets(due) {
        var i :| 0 <= i < |due| && due[i].ticket == t;
        assert Tickets(due)[i] == t;
      }
    }
    assert Placed(Settle(s, rule)) == Placed(s);
  }

  lemma SettleStagedWell(s: Store, rule: Rule)
    requires Valid(s)
    ensures StagedWell(Settle(s, rule))
  {
    hide Due, DueEntries, KeptEntries, Ordered, InsertAll, Stored, Conserved, WrittenInOrder;
    SplitOrdered(s.staged, rule);
  }

  lemma SettleWrittenInOrder(s: Store, rule: Rule)
    requires Valid(s)
    ensures WrittenInOrder(Settle(s, rule))
  {
    hide Due, DueEntries, KeptEntries, Ordered, InsertAll, Stored, Conserved;
    var due, kept := DueEntries(s.staged, rule), KeptEntries(s.staged, rule);
    SplitOrdered(s.staged, rule);
    DueAreStaged(s, due);
    WrittenWithDue(s, due);
    assert forall t, u :: SameSource(Settle(s, rule), t, u) == SameSource(s, t, u);
    forall t, e | t in s.written + Tickets(due) && e in kept && SameSource(s, t, e.ticket) ensures t < e.ticket {
      assert e in s.staged;
      if t !in s.written {
        var i :| 0 <= i < |due| && due[i].ticket == t;
        assert due[i] in s.staged;
        OnePerSource(s.staged, due[i], e);
      }
    }
  }

  lemma WrittenWithDue(s: Store, due: seq<Entry>)
    requires Valid(s) && Ordered(due) && forall i :: 0 <= i < |due| ==> due[i] in s.staged
    ensures var written := s.written + Tickets(due);
      && (forall t :: t in written ==> t < |s.accepted|)
      && (forall i, j :: 0 <= i < j < |written| ==> written[i] != written[j])
      && (forall i, j :: 0 <= i < j < |written| && SameSource(s, written[i], written[j]) ==> written[i] < written[j])
  {
    hide Ordered, Stored, Conserved;
    var written := s.written + Tickets(due);
    DueAreStaged(s, due);
    forall i, j | 0 <= i < j < |written|
      ensures written[i] != written[j] && (SameSource(s, written[i], written[j]) ==> written[i] < written[j]) {
      if i >= |s.written| {
        LaterDue(due, i - |s.written|, j - |s.written|);
      } else if j >= |s.written| {
        var e := due[j - |s.written|];
        assert e in s.staged && written[j] == e.ticket && written[i] == s.written[i] && s.written[i] in s.written;
      }
    }
  }

  lemma LaterDue(due: seq<Entry>, i: nat, j: nat)
    requires Ordered(due) && i < j < |due|
    ensures due[i].ticket < due[j].ticket
  {
  }

  lemma DueAreStaged(s: Store, due: seq<Entry>)
    requires Valid(s) && forall i :: 0 <= i < |due| ==> due[i] in s.staged
    ensures forall i :: 0 <= i < |due| ==> due[i].ticket < |s.accepted| && due[i].ticket !in s.written
  {
    hide Ordered, Stored, WrittenInOrder;
    forall i | 0 <= i < |due| ensures due[i].ticket !in s.written {
      assert due[i].ticket in TicketSet(s.staged);
      assert due[i].ticket !in WrittenSet(s);
    }
  }

  lemma {:induction false} InsertAllHas(database: map<Id, Commit>, entries: seq<Entry>)
    ensures forall id :: id in database ==> id in InsertAll(database, entries)
    ensures forall i :: 0 <= i < |entries| ==> entries[i].commit.eventId in InsertAll(database, entries)
    decreases |entries|
  {
    if entries != [] {
      InsertAllHas(Insert(database, entries[0].commit), entries[1..]);
    }
  }

  lemma SettleStored(s: Store, rule: Rule)
    requires Valid(s)
    ensures Stored(Settle(s, rule))
  {
    hide Due, DueEntries, KeptEntries, Ordered, InsertAll, Conserved, WrittenInOrder;
    var due := DueEntries(s.staged, rule);
    InsertAllHas(s.database, due);
    var after := Settle(s, rule);
    forall i | s.erased <= i < |after.written| && after.written[i] < |s.accepted|
      ensures s.accepted[after.written[i]].eventId in after.database {
      if i >= |s.written| {
        assert due[i - |s.written|] in s.staged;
      }
    }
  }

  lemma SettleKeeps(s: Store, rule: Rule)
    requires Valid(s)
    ensures Valid(Settle(s, rule))
  {
    hide Settle, Conserved, StagedWell, WrittenInOrder, Stored;
    SettleConserves(s, rule);
    SettleStagedWell(s, rule);
    SettleWrittenInOrder(s, rule);
    SettleStored(s, rule);
  }

  // ----- every operation -----

  lemma DropKeeps(s: Store)
    requires Valid(s)
    ensures Valid(DropStaged(s)) && DropStaged(s).staged == []
  {
    assert TicketSet([]) == {};
    assert WrittenSet(DropStaged(s)) == WrittenSet(s);
    assert Placed(DropStaged(s)) == Placed(s);
  }

  function Appended(s: Store, commit: Commit, now: int): Store {
    s.(staged := s.staged + [Entry(|s.accepted|, commit, now)], accepted := s.accepted + [commit])
  }

  lemma AppendConserves(s: Store, commit: Commit, now: int)
    requires Conserved(s)
    ensures Conserved(Appended(s, commit, now))
  {
    var e := Entry(|s.accepted|, commit, now);
    var after := Appended(s, commit, now);
    JoinedTickets(s.staged, [e]);
    assert TicketSet([e]) == {|s.accepted|} by {
      assert [e][0].ticket == |s.accepted|;
    }
    assert WrittenSet(after) == WrittenSet(s);
    assert |s.accepted| !in Placed(s);
    assert Placed(after) == Placed(s) + {|s.accepted|};
  }

  lemma AppendStagedWell(s: Store, commit: Commit, now: int)
    requires StagedWell(s) && Recording(s) && |s.staged| < STAGED_LIMIT
    requires forall e :: e in s.staged ==> e.commit.sourceId != commit.sourceId
    ensures StagedWell(Appended(s, commit, now))
  {
    var after := Appended(s, commit, now);
    assert forall i :: 0 <= i < |s.staged| ==> after.staged[i] == s.staged[i] && s.staged[i] in s.staged;
    forall e | e in after.staged ensures e.ticket < |after.accepted| && e.commit == after.accepted[e.ticket] {
      assert e in s.staged || e == Entry(|s.accepted|, commit, now);
    }
  }

  lemma AppendWrittenInOrder(s: Store, commit: Commit, now: int)
    requires WrittenInOrder(s) && StagedWell(s)
    ensures WrittenInOrder(Appended(s, commit, now))
  {
    hide Ordered;
    var after := Appended(s, commit, now);
    assert forall t: nat, u: nat :: t < |s.accepted| && u < |s.accepted| ==> SameSource(after, t, u) == SameSource(s, t, u);
    assert forall i :: 0 <= i < |s.written| ==> s.written[i] in s.written;
    forall t, e | t in after.written && e in after.staged && SameSource(after, t, e.ticket) ensures t < e.ticket {
      assert e in s.staged || e == Entry(|s.accepted|, commit, now);
    }
  }

  lemma AppendStored(s: Store, commit: Commit, now: int)
    requires Stored(s) && forall t :: t in s.written ==> t < |s.accepted|
    ensures Stored(Appended(s, commit, now))
  {
    assert forall i :: 0 <= i < |s.written| ==> s.written[i] in s.written;
  }

  /** Accepting adds one commit, to the end of what is staged. */
  lemma AppendKeeps(s: Store, commit: Commit, now: int)
    requires Valid(s) && Recording(s) && |s.staged| < STAGED_LIMIT
    requires forall e :: e in s.staged ==> e.commit.sourceId != commit.sourceId
    ensures Valid(Appended(s, commit, now))
  {
    hide Conserved, StagedWell, Stored, Appended;
    AppendConserves(s, commit, now);
    AppendStagedWell(s, commit, now);
    AppendWrittenInOrder(s, commit, now);
    AppendStored(s, commit, now);
  }

  lemma RecordKeeps(s: Store, commit: Commit, now: int)
    requires Valid(s)
    ensures Valid(Record(s, commit, now).0)
  {
    hide Valid, Acceptable;
    if Acceptable(commit) && Recording(s) {
      var settled := Settle(s, OfSource(commit.sourceId));
      SettleKeeps(s, OfSource(commit.sourceId));
      if |settled.staged| < STAGED_LIMIT {
        AppendKeeps(settled, commit, now);
      }
    }
  }

  lemma RemovedOrdered(entries: seq<Entry>, k: nat)
    requires Ordered(entries) && k < |entries|
    ensures Ordered(entries[..k] + entries[k + 1..])
    ensures entries[k].ticket !in TicketSet(entries[..k] + entries[k + 1..])
    ensures TicketSet(entries) == TicketSet(entries[..k] + entries[k + 1..]) + {entries[k].ticket}
    ensures forall e :: e in entries[..k] + entries[k + 1..] ==> e in entries
  {
    var rest := entries[..k] + entries[k + 1..];
    assert forall i :: 0 <= i < k ==> rest[i] == entries[i];
    assert forall i :: k <= i < |rest| ==> rest[i] == entries[i + 1];
    assert forall i :: k < i < |entries| ==> entries[i] == rest[i - 1];
  }

  lemma DiscardKeeps(s: Store, event: Id)
    requires Valid(s)
    ensures Valid(Discard(s, event).0)
  {
    hide Ordered, Stored, TicketSet;
    var k := FirstOf(s.staged, event);
    if k < |s.staged| {
      RemovedOrdered(s.staged, k);
      var after := Discard(s, event).0;
      assert WrittenSet(after) == WrittenSet(s);
      assert Placed(after) == Placed(s);
      assert Stored(after) by {
        StoredElsewhere(s, after);
      }
    }
  }

  lemma StoredElsewhere(s: Store, after: Store)
    requires Stored(s) && after.database == s.database && after.written == s.written && after.accepted == s.accepted && after.erased == s.erased
    ensures Stored(after)
  {
  }

  /** Every operation keeps the store valid. */
  lemma OperationKeeps(s: Store, op: Operation)
    requires Valid(s)
    ensures Valid(After(s, op))
  {
    match op
    case Recorded(commit, at) => RecordKeeps(s, commit, at);
    case Withdrawn(event) => DiscardKeeps(s, event);
    case Flushed(all, now) => SettleKeeps(s, if all then All else Elapsed(now));
    case Switched(on) => SwitchKeeps(s, on);
    case Configured => SwitchKeeps(s, true);
    case Cleared => SwitchKeeps(s, true);
  }

  lemma OnlySwitched(s: Store, configured: bool, enabled: bool)
    requires Valid(s) && (s.staged == [] || (configured && enabled))
    ensures Valid(s.(configured := configured, enabled := enabled))
    ensures Valid(s.(configured := configured, enabled := enabled, database := map[], erased := |s.written|))
  {
    hide Ordered, TicketSet;
    assert Placed(s.(configured := configured, enabled := enabled)) == Placed(s);
    assert Placed(s.(configured := configured, enabled := enabled, database := map[], erased := |s.written|)) == Placed(s);
  }

  lemma SameSwitches(s: Store)
    ensures DropStaged(s).configured == s.configured && DropStaged(s).enabled == s.enabled && DropStaged(s).written == s.written
  {
  }

  lemma SwitchKeeps(s: Store, on: bool)
    requires Valid(s)
    ensures Valid(SetEnabled(s, on).0) && Valid(ConfigurePassword(s).0) && Valid(ResetData(s))
  {
    hide DropStaged, Valid;
    DropKeeps(s);
    var dropped := DropStaged(s);
    if s.configured {
      OnlySwitched(s, s.configured, true);
    }
    OnlySwitched(dropped, s.configured, false);
    OnlySwitched(dropped, true, true);
    OnlySwitched(dropped, false, false);
    SameSwitches(s);
  }

  // ----- what single operations write -----

  /** Settling writes exactly the commits that the rule selects; the others stay staged. */
  lemma SettleMoves(s: Store, rule: Rule, e: Entry)
    requires Valid(s) && e in s.staged
    ensures e.ticket in Settle(s, rule).written <==> Due(e, rule)
    ensures e in Settle(s, rule).staged <==> !Due(e, rule)
  {
    hide Ordered, Stored, WrittenInOrder, InsertAll, DueEntries, KeptEntries, Due;
    var due := DueEntries(s.staged, rule);
    SplitCovers(s.staged, rule);
    DueAreStaged(s, [e]);
    assert [e][0].ticket !in s.written;
    if Due(e, rule) {
      var i :| 0 <= i < |due| && due[i] == e;
      assert Tickets(due)[i] == e.ticket;
    }
    if e.ticket in Tickets(due) {
      var i :| 0 <= i < |due| && due[i].ticket == e.ticket;
      assert due[i] in s.staged;
      OnePerSource(s.staged, due[i], e);
    }
  }

  /** Flushing without force writes exactly the commits whose window has elapsed; the others stay staged. */
  lemma FlushWritesElapsed(s: Store, now: int, e: Entry)
    requires Valid(s) && e in s.staged
    ensures var after := Flush(s, false, now);
      && (e.ticket in after.written <==> now - e.queuedAt >= WINDOW)
      && (e in after.staged <==> now - e.queuedAt < WINDOW)
  {
    hide Settle, Valid;
    SettleMoves(s, Elapsed(now), e);
  }

  /** Recording settles the earlier commit of the same source and leaves every other source's window open. */
  lemma RecordSettlesOnlyItsSource(s: Store, commit: Commit, now: int, e: Entry)
    requires Valid(s) && Acceptable(commit) && Recording(s) && e in s.staged
    ensures e in Record(s, commit, now).0.staged <==> e.commit.sourceId != commit.sourceId
    ensures e.ticket in Record(s, commit, now).0.written <==> e.commit.sourceId == commit.sourceId
  {
    hide Settle, Acceptable, Ordered, Conserved, WrittenInOrder, Stored;
    SettleMoves(s, OfSource(commit.sourceId), e);
    assert e.ticket < |s.accepted|;
    SettledHistory(s, OfSource(commit.sourceId));
  }

  lemma SettledHistory(s: Store, rule: Rule)
    ensures Settle(s, rule).accepted == s.accepted
  {
  }

  /** A record in the database is never replaced; for a new event the first entry written is the one stored. */
  lemma {:induction false} FirstRecordWins(database: map<Id, Commit>, entries: seq<Entry>, id: Id)
    ensures var after := InsertAll(database, entries);
      if id in database then id in after && after[id] == database[id]
      else if FirstOf(entries, id) < |entries| then id in after && after[id] == entries[FirstOf(entries, id)].commit
      else id !in after
    decreases |entries|
  {
    if entries != [] {
      FirstRecordWins(Insert(database, entries[0].commit), entries[1..], id);
    }
  }

  // ----- runs -----

  ghost predicate IsRun(states: seq<Store>, operations: seq<Operation>) {
    |states| == |operations| + 1 && Valid(states[0]) &&
    forall i :: 0 <= i < |operations| ==> states[i + 1] == After(states[i], operations[i])
  }

  /** History only grows: what reached a final place stays there. */
  ghost predicate Extends(s: Store, u: Store) {
    s.accepted <= u.accepted && s.written <= u.written && s.discarded <= u.discarded && s.dropped <= u.dropped
  }

  lemma OperationExtends(s: Store, op: Operation)
    ensures Extends(s, After(s, op))
  {
    hide Acceptable, DueEntries, KeptEntries, InsertAll, TicketSet;
  }

  lemma {:induction false} RunKeeps(states: seq<Store>, operations: seq<Operation>, i: nat, j: nat)
    requires IsRun(states, operations) && i <= j < |states|
    ensures Valid(states[i]) && Valid(states[j]) && Extends(states[i], states[j])
    decreases j
  {
    hide Valid, After, Extends;
    if j > 0 {
      RunKeeps(states, operations, if i < j then i else j - 1, j - 1);
      assert states[j] == After(states[j - 1], operations[j - 1]);
      OperationKeeps(states[j - 1], operations[j - 1]);
      OperationExtends(states[j - 1], operations[j - 1]);
    }
    ExtendsIsAnOrder(states[i], if j > 0 then states[j - 1] else states[j], states[j]);
  }

  lemma ExtendsIsAnOrder(a: Store, b: Store, c: Store)
    ensures Extends(a, a) && Extends(c, c)
    ensures Extends(a, b) && Extends(b, c) ==> Extends(a, c)
  {
  }

  lemma WrittenStays(s: Store, u: Store, t: nat)
    requires Extends(s, u)
    ensures t in s.written ==> t in WrittenSet(u)
  {
    if t in s.written {
      var k :| 0 <= k < |s.written| && s.written[k] == t;
      assert u.written[k] == t;
    }
  }

  /** Over every run, a commit is at each moment in exactly one place, and a discarded one is never written. */
  lemma DiscardedIsNeverWritten(states: seq<Store>, operations: seq<Operation>, i: nat, j: nat, t: nat)
    requires IsRun(states, operations) && i < |states| && j < |states|
    ensures Conserved(states[i])
    ensures t in states[i].discarded ==> t !in states[j].written
  {
    hide StagedWell, Stored, WrittenInOrder, IsRun, TicketSet, Placed;
    var last := if i < j then j else i;
    RunKeeps(states, operations, i, last);
    RunKeeps(states, operations, j, last);
    assert t in states[i].discarded ==> t in states[last].discarded;
    WrittenStays(states[j], states[last], t);
  }
}
