/** The commit store of the service (ime-unix-service/src/training/commit_store.cpp). The database is a map from
    event to commit. Each method is proved to do what CommitStaging.dfy says of the same operation. */
module CommitStores {
  import opened Wrappers
  import opened Sequences
  import opened Utf
  import opened Messages
  import opened CommitStaging

  datatype StagedCommit = StagedCommit(request: Commit, queuedAt: int)

  lemma {:induction false} SplitPush(entries: seq<Entry>, e: Entry, rule: Rule)
    ensures DueEntries(entries + [e], rule) == DueEntries(entries, rule) + (if Due(e, rule) then [e] else [])
    ensures KeptEntries(entries + [e], rule) == KeptEntries(entries, rule) + (if Due(e, rule) then [] else [e])
  {
    hide Due;
    if entries == [] {
      NothingAdded([e]);
      assert [e][1..] == [];
    } else {
      TailOfSum(entries, [e]);
      SplitPush(entries[1..], e, rule);
      var last := if Due(e, rule) then [e] else [];
      var other := if Due(e, rule) then [] else [e];
      Associative(if Due(entries[0], rule) then [entries[0]] else [], DueEntries(entries[1..], rule), last);
      Associative(if Due(entries[0], rule) then [] else [entries[0]], KeptEntries(entries[1..], rule), other);
    }
  }

  lemma {:induction false} InsertAllPush(database: map<Id, Commit>, entries: seq<Entry>, e: Entry)
    ensures InsertAll(database, entries + [e]) == Insert(InsertAll(database, entries), e.commit)
    decreases |entries|
  {
    hide Insert;
    if entries == [] {
      NothingAdded([e]);
      assert InsertAll(Insert(database, e.commit), [e][1..]) == Insert(database, e.commit);
    } else {
      TailOfSum(entries, [e]);
      InsertAllPush(Insert(database, entries[0].commit), entries[1..], e);
    }
  }

  /** A store half-way through settling the first `k` staged commits. */
  ghost function Partly(s: Store, k: nat, rule: Rule): Store
    requires k <= |s.staged|
  {
    var due := DueEntries(s.staged[..k], rule);
    s.(staged := KeptEntries(s.staged[..k], rule) + s.staged[k..], database := InsertAll(s.database, due),
       written := s.written + Tickets(due))
  }

  lemma PartlyEnds(s: Store, rule: Rule)
    ensures Partly(s, 0, rule) == s && Partly(s, |s.staged|, rule) == Settle(s, rule)
  {
    hide Due;
    Whole(s.staged);
    NothingAdded(s.staged);
    NothingAdded(s.written);
    NothingAdded(KeptEntries(s.staged, rule));
  }

  /** One staged commit further: it is written and removed, or kept. */
  lemma {:induction false} PartlyStep(s: Store, k: nat, rule: Rule)
    requires k < |s.staged|
    ensures var now, next := Partly(s, k, rule), Partly(s, k + 1, rule);
      var e := s.staged[k];
      var kept := |KeptEntries(s.staged[..k], rule)|;
      && kept < |now.staged| && now.staged[kept] == e
      && (if Due(e, rule) then
            && next == now.(staged := now.staged[..kept] + now.staged[kept + 1..], database := Insert(now.database, e.commit),
                            written := now.written + [e.ticket])
            && |KeptEntries(s.staged[..k + 1], rule)| == kept
          else next == now && |KeptEntries(s.staged[..k + 1], rule)| == kept + 1)
  {
    hide Due, Insert, InsertAll, KeptEntries, DueEntries;
    var e := s.staged[k];
    var kept, due := KeptEntries(s.staged[..k], rule), DueEntries(s.staged[..k], rule);
    PushOne(s.staged, k);
    SplitPush(s.staged[..k], e, rule);
    var now := Partly(s, k, rule);
    Parts(kept, s.staged[k..]);
    assert now.staged[|kept|..] == s.staged[k..];
    if Due(e, rule) {
      InsertAllPush(s.database, due, e);
      Associative(s.written, Tickets(due), [e.ticket]);
      assert Tickets(due + [e]) == Tickets(due) + [e.ticket];
      DropDrop(now.staged, |kept|, 1);
      NothingAdded(kept);
    } else {
      Associative(kept, [e], s.staged[k + 1..]);
      NothingAdded(due);
    }
  }

  lemma PartlyConfigured(s: Store, rule: Rule)
    ensures forall k :: 0 <= k <= |s.staged| ==> Partly(s, k, rule).configured == s.configured && Partly(s, k, rule).enabled == s.enabled
  {
  }

  /** Nothing is staged while recording is off. */
  lemma StagedOnlyWhileRecording(s: Store)
    requires CommitStaging.Valid(s)
    ensures s.staged != [] ==> s.configured && s.enabled
  {
  }

  lemma KeepOrDrop(kept: seq<Entry>, entries: seq<Entry>, k: nat)
    requires k < |entries|
    ensures kept + entries[k..] == kept + [entries[k]] + entries[k + 1..]
    ensures (kept + entries[k..])[..|kept|] + (kept + entries[k..])[|kept| + 1..] == kept + entries[k + 1..]
  {
  }

  /** One turn of a flush over `s`, seen from the store `now` with the commits kept so far. */
  lemma {:induction false} SweepStep(s: Store, now: Store, kept: seq<Entry>, k: nat, rule: Rule)
    requires k < |s.staged| && now.staged == s.staged && |kept| == |KeptEntries(s.staged[..k], rule)|
    requires Partly(s, k, rule) == now.(staged := kept + s.staged[k..])
    ensures var e := s.staged[k];
      if Due(e, rule) then
        && |KeptEntries(s.staged[..k + 1], rule)| == |kept|
        && Partly(s, k + 1, rule) == now.(staged := kept + s.staged[k + 1..], database := Insert(now.database, e.commit),
                                          written := now.written + [e.ticket])
      else
        && |KeptEntries(s.staged[..k + 1], rule)| == |kept| + 1
        && Partly(s, k + 1, rule) == now.(staged := kept + [e] + s.staged[k + 1..])
  {
    hide KeptEntries, Partly, Insert, Due;
    PartlyStep(s, k, rule);
    KeepOrDrop(kept, s.staged, k);
  }

  /** The checks of one request, in the order of the source. */
  method Validate(request: Commit) returns (ok: bool)
    ensures ok == Acceptable(request)
  {
    if IsZero(request.eventId) || IsZero(request.sourceId) || request.entries == [] || |request.entries| > 1024 ||
       request.answer == [] || |request.answer| > 1024 || |request.context| > 4096 ||
       !ValidUtf16(request.answer) || !ValidUtf16(request.context)
    {
      return false;
    }
    var answer: seq<int> := [];
    var trainable := false;
    var i := 0;
    while i < |request.entries|
      invariant 0 <= i <= |request.entries| && |answer| == i
      invariant forall k :: 0 <= k < i ==> EntryAcceptable(request.entries[k]) && answer[k] == request.entries[k].character
      invariant trainable <==> exists k :: 0 <= k < i && !request.entries[k].literal
    {
      var entry := request.entries[i];
      if entry.literal != (entry.reading == []) {
        return false;
      }
      if !entry.literal {
        if entry.reading == [] || |entry.reading| > 64 || !ValidUtf16(entry.reading) {
          return false;
        }
        trainable := true;
      }
      if entry.character == 0 || !IsScalar(entry.character) {
        return false;
      }
      answer := answer + [entry.character];
      i := i + 1;
    }
    if !trainable {
      return false;
    }
    DecodeOfUtf8(DecodeUtf16(request.answer).value);
    var utf8 := U16ToUtf8(request.answer);
    var scalars := Utf8ToU32(utf8.value);
    assert answer == Characters(request.entries);
    return scalars.value == answer;
  }

  /** What a flush has done with the first `k` staged commits of `s`: the store is now `now`, the commits that stay are
      `kept`, and `remaining` is the same list in the source's form. */
  ghost predicate Swept(s: Store, now: Store, kept: seq<Entry>, remaining: seq<StagedCommit>, k: nat, rule: Rule) {
    && k <= |s.staged| && now.staged == s.staged && |kept| == |KeptEntries(s.staged[..k], rule)|
    && Partly(s, k, rule) == now.(staged := kept + s.staged[k..])
    && SameCommits(kept, remaining)
  }

  predicate SameCommits(entries: seq<Entry>, staged: seq<StagedCommit>) {
    |entries| == |staged| &&
    forall i :: 0 <= i < |entries| ==> entries[i].commit == staged[i].request && entries[i].queuedAt == staged[i].queuedAt
  }

  lemma SweptStarts(s: Store, rule: Rule)
    ensures Swept(s, s, [], [], 0, rule)
  {
    hide Settle;
    PartlyEnds(s, rule);
    Whole(s.staged);
    NothingAdded(s.staged);
  }

  lemma SweptKeeps(s: Store, now: Store, kept: seq<Entry>, remaining: seq<StagedCommit>, k: nat, rule: Rule, c: StagedCommit)
    requires Swept(s, now, kept, remaining, k, rule) && k < |s.staged| && !Due(s.staged[k], rule)
    requires c.request == s.staged[k].commit && c.queuedAt == s.staged[k].queuedAt
    ensures Swept(s, now, kept + [s.staged[k]], remaining + [c], k + 1, rule)
  {
    hide Partly, KeptEntries, Due;
    SweepStep(s, now, kept, k, rule);
  }

  lemma SweptWrites(s: Store, now: Store, kept: seq<Entry>, remaining: seq<StagedCommit>, k: nat, rule: Rule)
    requires Swept(s, now, kept, remaining, k, rule) && k < |s.staged| && Due(s.staged[k], rule)
    ensures Swept(s, now.(database := Insert(now.database, s.staged[k].commit), written := now.written + [s.staged[k].ticket]),
                  kept, remaining, k + 1, rule)
  {
    hide Partly, KeptEntries, Due, Insert;
    SweepStep(s, now, kept, k, rule);
  }

  lemma SweptCommits(s: Store, now: Store, kept: seq<Entry>, remaining: seq<StagedCommit>, k: nat, rule: Rule)
    requires Swept(s, now, kept, remaining, k, rule)
    ensures SameCommits(kept, remaining)
  {
  }

  lemma SweptEnds(s: Store, now: Store, kept: seq<Entry>, remaining: seq<StagedCommit>, rule: Rule)
    requires Swept(s, now, kept, remaining, |s.staged|, rule)
    ensures now.(staged := kept) == Settle(s, rule)
  {
    hide Settle, Partly, KeptEntries;
    PartlyEnds(s, rule);
    NothingAdded(kept);
  }

  class CommitStore {
    var staged: seq<StagedCommit>
    var configured: bool
    var enabled: bool
    var database: map<Id, Commit>
    ghost var entries: seq<Entry>
    ghost var accepted: seq<Commit>
    ghost var written: seq<nat>
    ghost var discarded: set<nat>
    ghost var dropped: set<nat>
    ghost var erased: nat

    ghost function Value(): Store
      reads this
    {
      Store(entries, configured, enabled, database, accepted, written, discarded, dropped, erased)
    }

    ghost predicate Aligned()
      reads this
    {
      SameCommits(entries, staged)
    }

    ghost predicate Valid()
      reads this
    {
      Aligned() && CommitStaging.Valid(Value())
    }

    /** Opening a database that earlier runs may have filled. */
    constructor (database: map<Id, Commit>, configured: bool, enabled: bool)
      ensures Valid() && Value() == Store([], configured, enabled, database, [], [], {}, {}, 0)
    {
      staged, entries := [], [];
      this.configured, this.enabled, this.database := configured, enabled, database;
      accepted, written, discarded, dropped, erased := [], [], {}, {}, 0;
    }

    /** Only called while recording: staged commits exist only then. */
    method WriteLocked(request: Commit, ghost ticket: nat) returns (inserted: bool)
      requires configured
      modifies this`database, this`written
      ensures database == Insert(old(database), request) && written == old(written) + [ticket]
      ensures inserted == (request.eventId !in old(database))
      ensures |database| == |old(database)| + if inserted then 1 else 0
    {
      inserted := request.eventId !in database;
      if inserted {
        database := database[request.eventId := request];
      }
      written := written + [ticket];
    }

    /** Writes the staged commit at `k` and takes it out. */
    method WriteAndErase(k: nat)
      requires Aligned() && configured && k < |staged|
      modifies this
      ensures Aligned() && |staged| == old(|staged|) - 1
      ensures var s := old(Value());
        Value() == s.(staged := s.staged[..k] + s.staged[k + 1..], database := Insert(s.database, s.staged[k].commit),
                      written := s.written + [s.staged[k].ticket])
    {
      hide Insert;
      var _ := WriteLocked(staged[k].request, entries[k].ticket);
      staged := staged[..k] + staged[k + 1..];
      entries := entries[..k] + entries[k + 1..];
    }

    method SettleSource(source: Id)
      requires Valid() && configured && enabled
      modifies this
      ensures Aligned() && Value() == Settle(old(Value()), OfSource(source))
    {
      hide Settle, Insert, KeptEntries, CommitStaging.Valid, Partly;
      ghost var before := Value();
      ghost var rule := OfSource(source);
      ghost var done := 0;
      var k := 0;
      PartlyEnds(before, rule);
      PartlyConfigured(before, rule);
      while k < |staged|
        invariant done <= |before.staged| && k == |KeptEntries(before.staged[..done], rule)|
        invariant Aligned() && Value() == Partly(before, done, rule)
        invariant |before.staged| - done == |staged| - k
        decreases |staged| - k
      {
        PartlyStep(before, done, rule);
        if staged[k].request.sourceId == source {
          WriteAndErase(k);
        } else {
          k := k + 1;
        }
        done := done + 1;
      }
    }

    method Record(request: Commit, now: int) returns (ok: Option<bool>)
      requires Valid()
      modifies this
      ensures Valid() && (Value(), ok) == CommitStaging.Record(old(Value()), request, now)
    {
      hide Settle, CommitStaging.Valid, Acceptable;
      RecordKeeps(Value(), request, now);
      SettledHistory(Value(), OfSource(request.sourceId));
      var valid := Validate(request);
      if !valid {
        return None;
      }
      if !configured || !enabled {
        return Some(false);
      }
      SettleSource(request.sourceId);
      if |staged| >= STAGED_LIMIT {
        return Some(false);
      }
      staged := staged + [StagedCommit(request, now)];
      entries := entries + [Entry(|accepted|, request, now)];
      accepted := accepted + [request];
      return Some(true);
    }

    method DiscardStaged(event: Id) returns (found: bool)
      requires Valid()
      modifies this
      ensures Valid() && (Value(), found) == Discard(old(Value()), event)
    {
      hide CommitStaging.Valid;
      DiscardKeeps(Value(), event);
      var k := 0;
      Whole(entries);
      while k < |staged| && staged[k].request.eventId != event
        invariant 0 <= k <= |staged|
        invariant forall i :: 0 <= i < k ==> entries[i].commit.eventId != event
      {
        k := k + 1;
      }
      if k == |staged| {
        return false;
      }
      discarded := discarded + {entries[k].ticket};
      staged := staged[..k] + staged[k + 1..];
      entries := entries[..k] + entries[k + 1..];
      return true;
    }

    /** One turn of the flush: what is due is written, the rest is kept. */
    method SweepOne(k: nat, all: bool, now: int) returns (keep: bool, inserted: bool)
      requires k < |staged| && Aligned() && configured
      modifies this`database, this`written
      ensures keep == !Due(entries[k], if all then All else Elapsed(now))
      ensures keep ==> !inserted && unchanged(this)
      ensures !keep ==> database == Insert(old(database), entries[k].commit) && written == old(written) + [entries[k].ticket]
      ensures |database| == |old(database)| + if inserted then 1 else 0
    {
      if !all && now - staged[k].queuedAt < WINDOW {
        return true, false;
      }
      keep := false;
      inserted := WriteLocked(staged[k].request, entries[k].ticket);
    }

    method Sweep(all: bool, now: int) returns (count: nat, remaining: seq<StagedCommit>, ghost kept: seq<Entry>)
      requires Aligned() && (staged != [] ==> configured)
      modifies this`database, this`written
      ensures SameCommits(kept, remaining)
      ensures Value().(staged := kept) == Settle(old(Value()), if all then All else Elapsed(now))
      ensures count == |database| - |old(database)|
    {
      hide Settle, Insert, CommitStaging.Valid, Due, Swept;
      ghost var before := Value();
      ghost var rule := if all then All else Elapsed(now);
      SweptStarts(before, rule);
      kept := [];
      remaining := [];
      count := 0;
      var k := 0;
      while k < |staged|
        invariant 0 <= k <= |staged| && Aligned() && entries == before.staged && count == |database| - |before.database|
        invariant Swept(before, Value(), kept, remaining, k, rule)
      {
        if Due(entries[k], rule) {
          SweptWrites(before, Value(), kept, remaining, k, rule);
        } else {
          SweptKeeps(before, Value(), kept, remaining, k, rule, staged[k]);
        }
        var keep, inserted := SweepOne(k, all, now);
        if keep {
          remaining := remaining + [staged[k]];
          kept := kept + [entries[k]];
        }
        if inserted {
          count := count + 1;
        }
        k := k + 1;
      }
      SweptCommits(before, Value(), kept, remaining, k, rule);
      SweptEnds(before, Value(), kept, remaining, rule);
    }

    /** Writes what is due and keeps the rest; returns how many records are new. */
    method FlushStaged(all: bool, now: int) returns (count: nat)
      requires Valid()
      modifies this
      ensures Valid() && Value() == Flush(old(Value()), all, now)
      ensures count == |database| - |old(database)|
    {
      hide Settle, CommitStaging.Valid;
      SettleKeeps(Value(), if all then All else Elapsed(now));
      StagedOnlyWhileRecording(Value());
      var remaining: seq<StagedCommit>;
      ghost var kept: seq<Entry>;
      count, remaining, kept := Sweep(all, now);
      staged, entries := remaining, kept;
    }

    /** Shutting down writes everything that is still staged. */
    method Close(now: int)
      requires Valid()
      modifies this
      ensures Valid() && Value() == Settle(old(Value()), All)
    {
      var _ := FlushStaged(true, now);
    }

    method ClearStaged()
      requires Valid()
      modifies this
      ensures Valid() && staged == [] && Value() == DropStaged(old(Value()))
    {
      hide CommitStaging.Valid;
      DropKeeps(Value());
      dropped := dropped + TicketSet(entries);
      staged, entries := [], [];
    }

    method SetRecordingEnabled(on: bool) returns (ok: bool)
      requires Valid()
      modifies this
      ensures Valid() && (Value(), ok) == SetEnabled(old(Value()), on)
    {
      hide CommitStaging.Valid;
      SwitchKeeps(Value(), on);
      if on {
        if !configured {
          return false;
        }
      } else {
        ClearStaged();
      }
      if configured {
        enabled := on;
      }
      return true;
    }

    method ConfigurePassword() returns (ok: bool)
      requires Valid()
      modifies this
      ensures Valid() && (Value(), ok) == CommitStaging.ConfigurePassword(old(Value()))
    {
      hide CommitStaging.Valid;
      SwitchKeeps(Value(), true);
      if configured {
        return false;
      }
      ClearStaged();
      configured, enabled := true, true;
      return true;
    }

    method ResetConversationData()
      requires Valid()
      modifies this
      ensures Valid() && Value() == ResetData(old(Value()))
    {
      hide CommitStaging.Valid;
      SwitchKeeps(Value(), true);
      ClearStaged();
      database := map[];
      configured, enabled := false, false;
      erased := |written|;
    }
  }
}
