/** What every interleaving of the session manager keeps. */
module SessionSafety {
  import opened Wrappers
  import opened SessionManager

  predicate Increasing(ids: seq<nat>) {
    forall i, j :: 0 <= i < j < |ids| ==> ids[i] < ids[j]
  }

  function Last(ids: seq<nat>): nat {
    if ids == [] then 0 else ids[|ids| - 1]
  }

  /** The counter is exactly the number of admitted threads, and never exceeds the limit. */
  ghost predicate Counts(s: Manager, limits: Limits) {
    s.running == CountedThreads(s.threads) && s.running <= limits.maxConcurrent
  }

  /** A session's flag is set exactly when one thread owns it, and never two do. */
  ghost predicate Flags(s: Manager) {
    forall r :: 0 <= r < |s.heap| ==> Owners(s.threads, r) == if s.heap[r].inFlight then 1 else 0
  }

  ghost predicate Locks(s: Manager) {
    && (s.mutex.Some? ==> s.mutex.value < |s.threads|)
    && (s.predictionMutex.Some? ==> s.predictionMutex.value < |s.threads|)
    && forall t: nat :: t < |s.threads| ==>
      (s.mutex == Some(t) <==> HoldsMutex(s.threads[t])) && (s.predictionMutex == Some(t) <==> HoldsPrediction(s.threads[t]))
  }

  predicate HoldsMutex(pc: Pc) {
    pc.Evicting? || pc.Chosen? || pc.Closing? || pc.Marking?
  }

  predicate HoldsPrediction(pc: Pc) {
    pc.Testing? || pc.Woken? || pc.Checked?
  }

  /** A session's mutex is held between steps by a cancelling prediction of that session and by nobody else. */
  ghost predicate SessionLocks(s: Manager) {
    && (forall t: nat :: t < |s.threads| && s.threads[t].Cancelling? ==>
          s.threads[t].ref < |s.heap| && s.heap[s.threads[t].ref].lock == Some(t))
    && forall r :: 0 <= r < |s.heap| && s.heap[r].lock.Some? ==>
         s.heap[r].lock.value < |s.threads| && s.threads[s.heap[r].lock.value] == Cancelling(r)
  }

  /** A shutdown that holds the mutex is still marking sessions. */
  ghost predicate MarkingNow(s: Manager) {
    s.mutex.Some? && s.mutex.value < |s.threads| && s.threads[s.mutex.value].Marking?
  }

  /** The table names sessions by their ids, holds no more than the limit, and only closing ones once a shutdown
      has marked them. */
  ghost predicate Tables(s: Manager, limits: Limits) {
    && |s.table| <= limits.maxSessions
    && forall id :: id in s.table ==>
         s.table[id] < |s.heap| && s.heap[s.table[id]].id == id && (s.shuttingDown && !MarkingNow(s) ==> s.heap[s.table[id]].closing)
  }

  /** Accepted request ids strictly increase; a destroyed session is closing, idle and without an engine. */
  ghost predicate SessionOk(x: Session) {
    && Increasing(x.accepted) && x.lastRequest == Last(x.accepted)
    && (x.destroyed ==> x.closing && !x.inFlight && !x.engine)
  }

  ghost predicate Heaps(s: Manager) {
    forall r :: 0 <= r < |s.heap| ==> SessionOk(s.heap[r])
  }

  ghost predicate ClosingAt(s: Manager, ref: Ref) {
    ref < |s.heap| && s.heap[ref].closing
  }

  ghost predicate DestroyedAt(s: Manager, ref: Ref) {
    ref < |s.heap| && s.heap[ref].destroyed
  }

  /** A shutdown knows every session left in the table, and has destroyed the first `done` of them. */
  ghost predicate ShutdownOk(s: Manager, all: seq<Ref>, done: nat) {
    && s.shuttingDown && done <= |all|
    && (forall id :: id in s.table ==> s.table[id] in all)
    && (forall k :: 0 <= k < |all| ==> ClosingAt(s, all[k]))
    && (forall k :: 0 <= k < done ==> DestroyedAt(s, all[k]))
  }

  /** While a shutdown marks, every session of the table is still unmarked or already listed. */
  ghost predicate MarkingOk(s: Manager, all: seq<Ref>, unmarked: set<Id>) {
    && s.shuttingDown
    && (forall id :: id in s.table ==> id in unmarked || s.table[id] in all)
    && (forall k :: 0 <= k < |all| ==> ClosingAt(s, all[k]))
  }

  ghost predicate PcOk(s: Manager, pc: Pc, limits: Limits) {
    match pc
    case Idle => true
    case Evicting(opening, _, _) => opening ==> !s.shuttingDown
    case Chosen(opening, _, _, ref) =>
      (opening ==> !s.shuttingDown) && ref < |s.heap| && !s.heap[ref].closing && s.heap[ref].id in s.table && s.table[s.heap[ref].id] == ref
    case Found(ref, _) => ref < |s.heap|
    case Queued(ref) => ref < |s.heap|
    case Testing(ref) => ref < |s.heap|
    case Woken(ref) => ref < |s.heap| && MayWake(s, ref, limits)
    case Checked(ref) => ref < |s.heap| && (s.shuttingDown || s.running < limits.maxConcurrent)
    case Cancelling(ref) => ClosingAt(s, ref)
    case Abandoned(ref) => ClosingAt(s, ref)
    case Cancelled(ref) => ref < |s.heap|
    case Running(ref) => ref < |s.heap|
    case Finishing(ref) => ref < |s.heap|
    case Finished(ref) => ref < |s.heap|
    case Leaving => true
    case Closing(ref, _) => ref < |s.heap|
    case Draining(ref, _) => ClosingAt(s, ref)
    case Erasing(ref, _) => DestroyedAt(s, ref)
    case Marking(all, unmarked) => MarkingOk(s, all, unmarked)
    case Notifying(all) => ShutdownOk(s, all, 0)
    case DrainingAll(all, done) => ShutdownOk(s, all, done)
    case ClearingAll(all) => ShutdownOk(s, all, |all|)
  }

  ghost predicate Pcs(s: Manager, limits: Limits) {
    forall t :: 0 <= t < |s.threads| ==> PcOk(s, s.threads[t], limits)
  }

  ghost predicate Inv(s: Manager, limits: Limits) {
    Counts(s, limits) && Flags(s) && Locks(s) && SessionLocks(s) && Tables(s, limits) && Heaps(s) && Pcs(s, limits)
  }

  /** Nothing is ever forgotten: sessions stay, closing and destroyed are final, and so is a shutdown. */
  ghost predicate Evolves(s: Manager, n: Manager) {
    && |s.heap| <= |n.heap| && |s.threads| == |n.threads|
    && (s.shuttingDown ==> n.shuttingDown)
    && forall r :: 0 <= r < |s.heap| ==>
         n.heap[r].id == s.heap[r].id && (s.heap[r].closing ==> n.heap[r].closing && n.heap[r].accepted == s.heap[r].accepted) &&
         (s.heap[r].destroyed ==> n.heap[r].destroyed)
  }

  /** What a step of thread `t` may change without upsetting the others: the running count falls unless `t`
      holds the prediction mutex or nobody does, the table and the closing marks stay unless `t` holds the
      mutex or nobody does, and a table only shrinks in a shutdown. */
  ghost predicate Polite(s: Manager, n: Manager, t: Tid) {
    && Evolves(s, n)
    && t < |s.threads| && n.threads == s.threads[t := n.threads[t]]
    && (n.running <= s.running || s.predictionMutex.None? || s.predictionMutex == Some(t))
    && (s.mutex.None? || s.mutex == Some(t) ||
          (n.table == s.table && n.shuttingDown == s.shuttingDown &&
           forall r :: 0 <= r < |s.heap| ==> n.heap[r].closing == s.heap[r].closing))
    && (s.shuttingDown ==> forall id :: id in n.table ==> id in s.table && n.table[id] == s.table[id])
  }

  lemma OtherOk(s: Manager, n: Manager, t: Tid, u: Tid, limits: Limits)
    requires Inv(s, limits) && Polite(s, n, t) && u < |s.threads| && u != t
    ensures PcOk(n, s.threads[u], limits)
  {
    hide CountedThreads, Owners, Counts, Flags, Tables, Heaps;
    assert PcOk(s, s.threads[u], limits);
    match s.threads[u]
    case Notifying(all) => ShutdownStays(s, n, all, 0);
    case DrainingAll(all, done) => ShutdownStays(s, n, all, done);
    case ClearingAll(all) => ShutdownStays(s, n, all, |all|);
    case _ =>
  }

  lemma ShutdownStays(s: Manager, n: Manager, all: seq<Ref>, done: nat)
    requires ShutdownOk(s, all, done) && Evolves(s, n)
    requires forall id :: id in n.table ==> id in s.table && n.table[id] == s.table[id]
    ensures ShutdownOk(n, all, done)
  {
    forall k | 0 <= k < |all| ensures ClosingAt(n, all[k]) {
      assert ClosingAt(s, all[k]);
    }
    forall k | 0 <= k < done ensures DestroyedAt(n, all[k]) {
      assert DestroyedAt(s, all[k]);
    }
  }

  lemma AllOk(s: Manager, n: Manager, t: Tid, limits: Limits)
    requires Inv(s, limits) && Polite(s, n, t) && PcOk(n, n.threads[t], limits)
    ensures Pcs(n, limits)
  {
    hide Inv, Polite, PcOk;
    forall u | 0 <= u < |n.threads| ensures PcOk(n, n.threads[u], limits) {
      if u != t {
        Unmoved(s, n, t, u);
        OtherOk(s, n, t, u, limits);
      }
    }
  }

  lemma Unmoved(s: Manager, n: Manager, t: Tid, u: Tid)
    requires Polite(s, n, t) && u < |n.threads| && u != t
    ensures u < |s.threads| && n.threads[u] == s.threads[u]
  {
  }

  // ----- steps that move no count and no flag -----

  /** Same role: neither counted nor owning more or less than before. */
  predicate SameRole(a: Pc, b: Pc) {
    Counted(a) == Counted(b) && RoleRef(a) == RoleRef(b)
  }

  /** The session a thread owns, if any. */
  function RoleRef(pc: Pc): Option<Ref> {
    match pc
    case Queued(r) => Some(r)
    case Testing(r) => Some(r)
    case Woken(r) => Some(r)
    case Checked(r) => Some(r)
    case Cancelling(r) => Some(r)
    case Abandoned(r) => Some(r)
    case Cancelled(r) => Some(r)
    case Running(r) => Some(r)
    case Finishing(r) => Some(r)
    case Finished(r) => Some(r)
    case _ => None
  }

  lemma RoleOwns(pc: Pc, ref: Ref)
    ensures Owns(pc, ref) <==> RoleRef(pc) == Some(ref)
  {
  }

  lemma SameRoleKeeps(s: Manager, n: Manager, t: Tid, limits: Limits)
    requires Counts(s, limits) && Flags(s) && t < |s.threads| == |n.threads| && n.threads == s.threads[t := n.threads[t]]
    requires SameRole(s.threads[t], n.threads[t]) && n.running == s.running && |n.heap| == |s.heap|
    requires forall r :: 0 <= r < |s.heap| ==> n.heap[r].inFlight == s.heap[r].inFlight
    ensures Counts(n, limits) && Flags(n)
  {
    hide Owns, Counted, RoleRef, CountedThreads, Owners;
    CountUpdate(s.threads, t, n.threads[t]);
    forall r | 0 <= r < |s.heap| ensures Owners(n.threads, r) == Owners(s.threads, r) {
      OwnersUpdate(s.threads, t, n.threads[t], r);
      RoleOwns(s.threads[t], r);
      RoleOwns(n.threads[t], r);
    }
  }

  lemma SameLocks(s: Manager, n: Manager, t: Tid)
    requires SessionLocks(s) && t < |s.threads| == |n.threads| && n.threads == s.threads[t := n.threads[t]]
    requires !s.threads[t].Cancelling? && !n.threads[t].Cancelling? && |n.heap| == |s.heap|
    requires forall r :: 0 <= r < |s.heap| ==> n.heap[r].lock == s.heap[r].lock
    ensures SessionLocks(n)
  {
  }

  lemma TablesKept(s: Manager, n: Manager, limits: Limits)
    requires Tables(s, limits) && (MarkingNow(s) ==> MarkingNow(n))
    requires n.table == s.table && n.shuttingDown == s.shuttingDown && |n.heap| == |s.heap|
    requires forall r :: 0 <= r < |s.heap| ==> n.heap[r].id == s.heap[r].id && (s.heap[r].closing ==> n.heap[r].closing)
    ensures Tables(n, limits)
  {
    hide MarkingNow;
  }

  lemma SameTables(s: Manager, n: Manager, t: Tid, limits: Limits)
    requires Tables(s, limits) && t < |s.threads| == |n.threads| && n.threads == s.threads[t := n.threads[t]]
    requires n.mutex == s.mutex && n.table == s.table && n.shuttingDown == s.shuttingDown && |n.heap| == |s.heap|
    requires s.threads[t].Marking? == n.threads[t].Marking?
    requires forall r :: 0 <= r < |s.heap| ==> n.heap[r].id == s.heap[r].id && (s.heap[r].closing ==> n.heap[r].closing)
    ensures Tables(n, limits)
  {
  }

  ghost predicate Keeps(s: Manager, n: Option<Manager>, limits: Limits) {
    n.Some? ==> Inv(n.value, limits) && Evolves(s, n.value)
  }

  lemma BeginKeeps(s: Manager, t: Tid, opening: bool, uid: nat, limits: Limits)
    requires Inv(s, limits) && t < |s.threads|
    ensures Keeps(s, BeginEvicting(s, t, opening, uid), limits)
  {
    hide CountedThreads, Owners, SessionLocks, Tables, Polite, PcOk, Pcs, Heaps, Evolves;
    var r := BeginEvicting(s, t, opening, uid);
    if r.Some? && r.value != s {
      BeginPolite(s, r.value, t, opening, uid, limits);
      SameRoleKeeps(s, r.value, t, limits);
      SameLocks(s, r.value, t);
      TablesKept(s, r.value, limits);
      hide Flags, Counts;
      AllOk(s, r.value, t, limits);
    } else {
      EvolvesSame(s);
    }
  }

  lemma BeginPolite(s: Manager, n: Manager, t: Tid, opening: bool, uid: nat, limits: Limits)
    requires Pcs(s, limits) && Heaps(s) && Locks(s) && Tables(s, limits) && t < |s.threads| && BeginEvicting(s, t, opening, uid) == Some(n) && n != s
    ensures Polite(s, n, t) && Evolves(s, n) && Heaps(n) && PcOk(n, n.threads[t], limits) && Locks(n)
  {
    assert PcOk(s, s.threads[t], limits);
  }

  lemma ProbeKeeps(s: Manager, t: Tid, id: Id, take: bool, limits: Limits)
    requires Inv(s, limits) && t < |s.threads|
    ensures Keeps(s, ProbeStep(s, t, id, take), limits)
  {
    hide CountedThreads, Owners, SessionLocks, Tables, Polite, PcOk, Pcs, Heaps, Evolves;
    var r := ProbeStep(s, t, id, take);
    if r.Some? {
      ProbePolite(s, r.value, t, id, take, limits);
      SameRoleKeeps(s, r.value, t, limits);
      SameLocks(s, r.value, t);
      TablesKept(s, r.value, limits);
      hide Flags, Counts;
      AllOk(s, r.value, t, limits);
    }
  }

  lemma ProbePolite(s: Manager, n: Manager, t: Tid, id: Id, take: bool, limits: Limits)
    requires Pcs(s, limits) && Heaps(s) && Locks(s) && Tables(s, limits) && t < |s.threads| && ProbeStep(s, t, id, take) == Some(n)
    ensures Polite(s, n, t) && Evolves(s, n) && Heaps(n) && PcOk(n, n.threads[t], limits) && Locks(n)
  {
    assert PcOk(s, s.threads[t], limits);
  }

  lemma EraseKeeps(s: Manager, t: Tid, limits: Limits)
    requires Inv(s, limits) && t < |s.threads|
    ensures Keeps(s, EraseStep(s, t), limits)
  {
    hide CountedThreads, Owners, SessionLocks, Tables;
    var r := EraseStep(s, t);
    if r.Some? {
      assert PcOk(s, s.threads[t], limits);
      ErasedTable(s, r.value, s.heap[s.threads[t].ref].id, limits);
      SameRoleKeeps(s, r.value, t, limits);
      SameLocks(s, r.value, t);
      hide Flags, Counts;
      AllOk(s, r.value, t, limits);
    }
  }

  lemma ErasedTable(s: Manager, n: Manager, id: Id, limits: Limits)
    requires Tables(s, limits) && n.heap == s.heap && n.shuttingDown == s.shuttingDown && n.table == s.table - {id}
    requires MarkingNow(s) ==> MarkingNow(n)
    ensures Tables(n, limits)
    ensures forall x :: x in n.table ==> x in s.table && n.table[x] == s.table[x]
  {
    SmallerTable(s.table, id);
  }

  lemma SmallerTable(table: map<Id, Ref>, id: Id)
    ensures |table - {id}| <= |table|
  {
    var less := table - {id};
    assert less.Keys <= table.Keys;
    SubsetSize(less.Keys, table.Keys);
    assert |less.Keys| == |less| && |table.Keys| == |table|;
  }

  lemma {:induction false} SubsetSize(a: set<nat>, b: set<nat>)
    requires a <= b
    ensures |a| <= |b|
    decreases a
  {
    if a != {} {
      var x :| x in a;
      SubsetSize(a - {x}, b - {x});
    }
  }

  lemma OpenedLocks(s: Manager, n: Manager, t: Tid)
    requires SessionLocks(s) && t < |s.threads| == |n.threads| && n.threads == s.threads[t := n.threads[t]]
    requires !s.threads[t].Cancelling? && !n.threads[t].Cancelling? && |s.heap| <= |n.heap|
    requires forall r :: 0 <= r < |s.heap| ==> n.heap[r].lock == s.heap[r].lock
    requires forall r :: |s.heap| <= r < |n.heap| ==> n.heap[r].lock.None?
    ensures SessionLocks(n)
  {
  }

  lemma OpenKeeps(s: Manager, t: Tid, id: Id, limits: Limits)
    requires Inv(s, limits) && t < |s.threads|
    ensures Keeps(s, OpenStep(s, t, id, limits), limits)
  {
    hide CountedThreads, Owners, SessionLocks, Tables, Polite, PcOk, Pcs, Heaps, Evolves;
    var r := OpenStep(s, t, id, limits);
    if r.Some? {
      var n := r.value;
      OpenPolite(s, n, t, id, limits);
      OpenTables(s, n, t, id, limits);
      SameRoleKeeps(s, n.(heap := s.heap), t, limits);
      if |s.table| < limits.maxSessions {
        OpenedFlags(s, n, t, limits);
      }
      OpenedLocks(s, n, t);
      hide Flags, Counts;
      AllOk(s, n, t, limits);
    }
  }

  lemma OpenPolite(s: Manager, n: Manager, t: Tid, id: Id, limits: Limits)
    requires Pcs(s, limits) && Heaps(s) && Locks(s) && t < |s.threads| && OpenStep(s, t, id, limits) == Some(n)
    ensures Polite(s, n, t) && Evolves(s, n) && Heaps(n) && PcOk(n, n.threads[t], limits) && Locks(n)
  {
    assert PcOk(s, s.threads[t], limits);
  }

  lemma OpenTables(s: Manager, n: Manager, t: Tid, id: Id, limits: Limits)
    requires Pcs(s, limits) && Locks(s) && Tables(s, limits) && t < |s.threads| && OpenStep(s, t, id, limits) == Some(n)
    ensures Tables(n, limits)
  {
    assert PcOk(s, s.threads[t], limits);
  }

  /** No thread owns a session that does not exist yet. */
  lemma OpenedFlags(s: Manager, n: Manager, t: Tid, limits: Limits)
    requires Inv(s, limits) && t < |s.threads| && Flags(n.(heap := s.heap)) && n.threads == s.threads[t := Idle]
    requires |n.heap| == |s.heap| + 1 && n.heap[..|s.heap|] == s.heap && !n.heap[|s.heap|].inFlight
    ensures Flags(n)
  {
    hide Owns;
    var next := |s.heap|;
    forall u | 0 <= u < |n.threads| ensures !Owns(n.threads[u], next) {
      NotOwning(s, u, limits);
    }
    NobodyOwns(n.threads, next);
    forall r | 0 <= r < |n.heap| ensures Owners(n.threads, r) == if n.heap[r].inFlight then 1 else 0 {
      if r < |s.heap| {
        assert n.heap[..|s.heap|][r] == n.heap[r];
      }
    }
  }

  lemma NotOwning(s: Manager, u: Tid, limits: Limits)
    requires Pcs(s, limits) && u < |s.threads|
    ensures !Owns(s.threads[u], |s.heap|) && !Owns(Idle, |s.heap|)
  {
    assert PcOk(s, s.threads[u], limits);
  }

  lemma {:induction false} NobodyOwns(threads: seq<Pc>, ref: Ref)
    requires forall t :: 0 <= t < |threads| ==> !Owns(threads[t], ref)
    ensures Owners(threads, ref) == 0
  {
    hide Owns;
    if threads != [] {
      assert forall t :: 0 <= t < |threads| - 1 ==> threads[1..][t] == threads[t + 1];
      NobodyOwns(threads[1..], ref);
    }
  }

  lemma ReapKeeps(s: Manager, t: Tid, limits: Limits)
    requires Inv(s, limits) && t < |s.threads|
    ensures Keeps(s, ReapStep(s, t), limits)
  {
    hide CountedThreads, Owners, SessionLocks, Tables, Polite, PcOk, Pcs, Heaps, Evolves;
    var r := ReapStep(s, t);
    if r.Some? {
      ReapPolite(s, r.value, t, limits);
      SameRoleKeeps(s, r.value, t, limits);
      SameLocks(s, r.value, t);
      TablesKept(s, r.value, limits);
      hide Flags, Counts;
      AllOk(s, r.value, t, limits);
    }
  }

  lemma ReapPolite(s: Manager, n: Manager, t: Tid, limits: Limits)
    requires Pcs(s, limits) && Heaps(s) && Locks(s) && Tables(s, limits) && t < |s.threads| && ReapStep(s, t) == Some(n)
    ensures Polite(s, n, t) && Evolves(s, n) && Heaps(n) && PcOk(n, n.threads[t], limits) && Locks(n)
  {
    assert PcOk(s, s.threads[t], limits);
  }

  lemma LookupKeeps(s: Manager, t: Tid, uid: nat, id: Id, request: nat, limits: Limits)
    requires Inv(s, limits) && t < |s.threads|
    ensures Keeps(s, LookupStep(s, t, uid, id, request), limits)
  {
    hide CountedThreads, Owners, SessionLocks, Tables, Polite, PcOk, Pcs, Heaps, Evolves;
    var r := LookupStep(s, t, uid, id, request);
    if r.Some? && r.value != s {
      LookupPolite(s, r.value, t, uid, id, request, limits);
      SameRoleKeeps(s, r.value, t, limits);
      SameLocks(s, r.value, t);
      TablesKept(s, r.value, limits);
      hide Flags, Counts;
      AllOk(s, r.value, t, limits);
    } else {
      EvolvesSame(s);
    }
  }

  lemma LookupPolite(s: Manager, n: Manager, t: Tid, uid: nat, id: Id, request: nat, limits: Limits)
    requires Pcs(s, limits) && Heaps(s) && Locks(s) && Tables(s, limits) && t < |s.threads| && LookupStep(s, t, uid, id, request) == Some(n) && n != s
    ensures Polite(s, n, t) && Evolves(s, n) && Heaps(n) && PcOk(n, n.threads[t], limits) && Locks(n)
  {
    assert PcOk(s, s.threads[t], limits);
  }

  /** Setting or releasing a flag together with the thread that owns the session. */
  lemma FlagMoves(s: Manager, n: Manager, t: Tid, ref: Ref, limits: Limits)
    requires Counts(s, limits) && Flags(s) && t < |s.threads| == |n.threads| && n.threads == s.threads[t := n.threads[t]]
    requires ref < |s.heap| == |n.heap| && n.running == s.running && Counted(s.threads[t]) == Counted(n.threads[t])
    requires forall r :: 0 <= r < |s.heap| && r != ref ==> n.heap[r] == s.heap[r]
    requires RoleRef(s.threads[t]) == (if n.heap[ref].inFlight then None else Some(ref))
    requires RoleRef(n.threads[t]) == (if n.heap[ref].inFlight then Some(ref) else None)
    requires n.heap[ref].inFlight != s.heap[ref].inFlight
    ensures Counts(n, limits) && Flags(n)
  {
    hide Owns, Counted, RoleRef, CountedThreads, Owners;
    CountUpdate(s.threads, t, n.threads[t]);
    forall r | 0 <= r < |s.heap| ensures Owners(n.threads, r) == if n.heap[r].inFlight then 1 else 0 {
      OwnersUpdate(s.threads, t, n.threads[t], r);
      RoleOwns(s.threads[t], r);
      RoleOwns(n.threads[t], r);
    }
  }

  lemma ClaimKeeps(s: Manager, t: Tid, limits: Limits)
    requires Inv(s, limits) && t < |s.threads|
    ensures Keeps(s, ClaimStep(s, t), limits)
  {
    hide CountedThreads, Owners, SessionLocks, Tables, Polite, PcOk, Pcs, Heaps, Evolves;
    var r := ClaimStep(s, t);
    if r.Some? {
      ClaimPolite(s, r.value, t, limits);
      if Takes(s.heap[s.threads[t].ref], s.threads[t].request) {
        FlagMoves(s, r.value, t, s.threads[t].ref, limits);
      } else {
        SameRoleKeeps(s, r.value, t, limits);
      }
      SameLocks(s, r.value, t);
      TablesKept(s, r.value, limits);
      hide Flags, Counts;
      AllOk(s, r.value, t, limits);
    }
  }

  lemma ClaimPolite(s: Manager, n: Manager, t: Tid, limits: Limits)
    requires Pcs(s, limits) && Heaps(s) && Locks(s) && t < |s.threads| && ClaimStep(s, t) == Some(n)
    ensures Polite(s, n, t) && Evolves(s, n) && Heaps(n) && PcOk(n, n.threads[t], limits) && Locks(n)
  {
    hide SessionOk;
    ClaimHeap(s, n, t);
  }

  lemma ClaimHeap(s: Manager, n: Manager, t: Tid)
    requires Heaps(s) && t < |s.threads| && ClaimStep(s, t) == Some(n)
    ensures Heaps(n)
  {
    var ref := s.threads[t].ref;
    assert SessionOk(s.heap[ref]);
    if Takes(s.heap[ref], s.threads[t].request) {
      AcceptedIncrease(s.heap[ref].accepted, s.threads[t].request);
    }
  }

  lemma AcceptedIncrease(ids: seq<nat>, request: nat)
    requires Increasing(ids) && request > Last(ids)
    ensures Increasing(ids + [request]) && Last(ids + [request]) == request
  {
  }

  lemma WakeKeeps(s: Manager, t: Tid, limits: Limits)
    requires Inv(s, limits) && t < |s.threads|
    ensures Keeps(s, WakeStep(s, t), limits)
  {
    hide CountedThreads, Owners, SessionLocks, Tables;
    var r := WakeStep(s, t);
    if r.Some? {
      assert PcOk(s, s.threads[t], limits);
      SameRoleKeeps(s, r.value, t, limits);
      SameLocks(s, r.value, t);
      SameTables(s, r.value, t, limits);
      hide Flags, Counts;
      AllOk(s, r.value, t, limits);
    }
  }

  lemma TestKeeps(s: Manager, t: Tid, limits: Limits)
    requires Inv(s, limits) && t < |s.threads|
    ensures Keeps(s, TestStep(s, t, limits), limits)
  {
    hide CountedThreads, Owners, SessionLocks, Tables;
    var r := TestStep(s, t, limits);
    if r.Some? {
      assert PcOk(s, s.threads[t], limits);
      SameRoleKeeps(s, r.value, t, limits);
      SameLocks(s, r.value, t);
      SameTables(s, r.value, t, limits);
      hide Flags, Counts;
      AllOk(s, r.value, t, limits);
    }
  }

  lemma RecheckedLocks(s: Manager, n: Manager, t: Tid)
    requires SessionLocks(s) && t < |s.threads| && RecheckStep(s, t) == Some(n)
    ensures SessionLocks(n)
  {
  }

  lemma RecheckKeeps(s: Manager, t: Tid, limits: Limits)
    requires Inv(s, limits) && t < |s.threads|
    ensures Keeps(s, RecheckStep(s, t), limits)
  {
    hide CountedThreads, Owners, SessionLocks, Tables, Polite, PcOk, Pcs, Heaps, Evolves;
    var r := RecheckStep(s, t);
    if r.Some? {
      RecheckPolite(s, r.value, t, limits);
      SameRoleKeeps(s, r.value, t, limits);
      RecheckedLocks(s, r.value, t);
      SameTables(s, r.value, t, limits);
      hide Flags, Counts;
      AllOk(s, r.value, t, limits);
    }
  }

  lemma RecheckPolite(s: Manager, n: Manager, t: Tid, limits: Limits)
    requires Pcs(s, limits) && Heaps(s) && t < |s.threads| && RecheckStep(s, t) == Some(n)
    ensures Polite(s, n, t) && Evolves(s, n) && Heaps(n) && PcOk(n, n.threads[t], limits)
  {
    assert PcOk(s, s.threads[t], limits);
    assert SessionOk(s.heap[s.threads[t].ref]);
  }

  /** A thread that waits for a mutex it holds itself cannot go on. */
  lemma CancelReleaseKeeps(s: Manager, t: Tid, limits: Limits)
    requires Inv(s, limits) && t < |s.threads|
    ensures CancelReleaseStep(s, t) == None
    ensures Keeps(s, CancelReleaseStep(s, t), limits)
  {
  }

  lemma ThrownLocks(s: Manager, n: Manager, t: Tid)
    requires SessionLocks(s) && t < |s.threads| && CancelThrowStep(s, t) == Some(n)
    ensures SessionLocks(n)
  {
  }

  lemma CancelThrowKeeps(s: Manager, t: Tid, limits: Limits)
    requires Inv(s, limits) && t < |s.threads|
    ensures Keeps(s, CancelThrowStep(s, t), limits)
  {
    hide CountedThreads, Owners, SessionLocks, Tables;
    var r := CancelThrowStep(s, t);
    if r.Some? {
      assert PcOk(s, s.threads[t], limits);
      assert SessionOk(s.heap[s.threads[t].ref]);
      SameRoleKeeps(s, r.value, t, limits);
      ThrownLocks(s, r.value, t);
      SameTables(s, r.value, t, limits);
      hide Flags, Counts;
      AllOk(s, r.value, t, limits);
    }
  }

  lemma AdmitKeeps(s: Manager, t: Tid, limits: Limits)
    requires Inv(s, limits) && t < |s.threads|
    ensures Keeps(s, AdmitStep(s, t), limits)
  {
    hide CountedThreads, Owners, SessionLocks, Tables;
    var r := AdmitStep(s, t);
    if r.Some? {
      assert PcOk(s, s.threads[t], limits);
      if s.shuttingDown {
        SameRoleKeeps(s, r.value, t, limits);
      } else {
        CountUpdate(s.threads, t, r.value.threads[t]);
        SameOwners(s, r.value, t);
      }
      SameLocks(s, r.value, t);
      SameTables(s, r.value, t, limits);
      hide Flags, Counts;
      AllOk(s, r.value, t, limits);
    }
  }

  /** The thread keeps its session. */
  lemma SameOwners(s: Manager, n: Manager, t: Tid)
    requires Flags(s) && t < |s.threads| == |n.threads| && n.threads == s.threads[t := n.threads[t]] && n.heap == s.heap
    requires RoleRef(s.threads[t]) == RoleRef(n.threads[t])
    ensures Flags(n)
  {
    hide Owns, RoleRef, Owners;
    forall r | 0 <= r < |s.heap| ensures Owners(n.threads, r) == Owners(s.threads, r) {
      OwnersUpdate(s.threads, t, n.threads[t], r);
      RoleOwns(s.threads[t], r);
      RoleOwns(n.threads[t], r);
    }
  }

  lemma OwnedIsFlagged(s: Manager, t: Tid, ref: Ref)
    requires Flags(s) && t < |s.threads| && ref < |s.heap| && RoleRef(s.threads[t]) == Some(ref)
    ensures s.heap[ref].inFlight
  {
    hide Owners;
    RoleOwns(s.threads[t], ref);
    OwnerCounts(s.threads, t, ref);
  }

  lemma ReleaseKeeps(s: Manager, t: Tid, limits: Limits)
    requires Inv(s, limits) && t < |s.threads|
    ensures Keeps(s, ReleaseStep(s, t), limits)
  {
    hide CountedThreads, Owners, SessionLocks, Tables;
    var r := ReleaseStep(s, t);
    if r.Some? {
      OwnedIsFlagged(s, t, s.threads[t].ref);
      assert SessionOk(s.heap[s.threads[t].ref]);
      FlagMoves(s, r.value, t, s.threads[t].ref, limits);
      SameLocks(s, r.value, t);
      SameTables(s, r.value, t, limits);
      hide Flags, Counts;
      AllOk(s, r.value, t, limits);
    }
  }

  lemma RunKeeps(s: Manager, t: Tid, made: bool, limits: Limits)
    requires Inv(s, limits) && t < |s.threads|
    ensures Keeps(s, RunStep(s, t, made), limits)
  {
    hide CountedThreads, Owners, SessionLocks, Tables;
    var r := RunStep(s, t, made);
    if r.Some? {
      OwnedIsFlagged(s, t, s.threads[t].ref);
      assert SessionOk(s.heap[s.threads[t].ref]);
      SameRoleKeeps(s, r.value, t, limits);
      SameLocks(s, r.value, t);
      SameTables(s, r.value, t, limits);
      hide Flags, Counts;
      AllOk(s, r.value, t, limits);
    }
  }

  lemma DecrementKeeps(s: Manager, t: Tid, limits: Limits)
    requires Inv(s, limits) && t < |s.threads|
    ensures Keeps(s, DecrementStep(s, t), limits)
    ensures s.threads[t].Finishing? ==> s.running > 0
  {
    hide CountedThreads, Owners, SessionLocks, Tables;
    if s.threads[t].Finishing? {
      CountUpdate(s.threads, t, Finished(s.threads[t].ref));
      assert PcOk(s, s.threads[t], limits);
    }
    var r := DecrementStep(s, t);
    if r.Some? {
      SameOwners(s, r.value, t);
      SameLocks(s, r.value, t);
      SameTables(s, r.value, t, limits);
      hide Flags, Counts;
      AllOk(s, r.value, t, limits);
    }
  }

  lemma ClearFlagKeeps(s: Manager, t: Tid, limits: Limits)
    requires Inv(s, limits) && t < |s.threads|
    ensures Keeps(s, ClearFlagStep(s, t), limits)
  {
    hide CountedThreads, Owners, SessionLocks, Tables;
    var r := ClearFlagStep(s, t);
    if r.Some? {
      OwnedIsFlagged(s, t, s.threads[t].ref);
      assert SessionOk(s.heap[s.threads[t].ref]);
      FlagMoves(s, r.value, t, s.threads[t].ref, limits);
      SameLocks(s, r.value, t);
      SameTables(s, r.value, t, limits);
      hide Flags, Counts;
      AllOk(s, r.value, t, limits);
    }
  }

  lemma LeaveKeeps(s: Manager, t: Tid, limits: Limits)
    requires Inv(s, limits) && t < |s.threads|
    ensures Keeps(s, LeaveStep(s, t), limits)
  {
    hide CountedThreads, Owners, SessionLocks, Tables;
    var r := LeaveStep(s, t);
    if r.Some? {
      SameRoleKeeps(s, r.value, t, limits);
      SameLocks(s, r.value, t);
      SameTables(s, r.value, t, limits);
      hide Flags, Counts;
      AllOk(s, r.value, t, limits);
    }
  }

  lemma CloseKeeps(s: Manager, t: Tid, uid: nat, id: Id, limits: Limits)
    requires Inv(s, limits) && t < |s.threads|
    ensures Keeps(s, CloseStep(s, t, uid, id), limits)
  {
    hide CountedThreads, Owners, SessionLocks, Tables, Polite, PcOk, Pcs, Heaps, Evolves;
    var r := CloseStep(s, t, uid, id);
    if r.Some? && r.value != s {
      ClosePolite(s, r.value, t, uid, id, limits);
      SameRoleKeeps(s, r.value, t, limits);
      SameLocks(s, r.value, t);
      TablesKept(s, r.value, limits);
      hide Flags, Counts;
      AllOk(s, r.value, t, limits);
    } else {
      EvolvesSame(s);
    }
  }

  lemma ClosePolite(s: Manager, n: Manager, t: Tid, uid: nat, id: Id, limits: Limits)
    requires Pcs(s, limits) && Heaps(s) && Locks(s) && Tables(s, limits) && t < |s.threads| && CloseStep(s, t, uid, id) == Some(n) && n != s
    ensures Polite(s, n, t) && Evolves(s, n) && Heaps(n) && PcOk(n, n.threads[t], limits) && Locks(n)
  {
    assert PcOk(s, s.threads[t], limits);
  }

  lemma CloseMarkKeeps(s: Manager, t: Tid, limits: Limits)
    requires Inv(s, limits) && t < |s.threads|
    ensures Keeps(s, CloseMarkStep(s, t), limits)
  {
    hide CountedThreads, Owners, SessionLocks, Tables, Polite, PcOk, Pcs, Heaps, Evolves;
    var r := CloseMarkStep(s, t);
    if r.Some? {
      CloseMarkPolite(s, r.value, t, limits);
      SameRoleKeeps(s, r.value, t, limits);
      SameLocks(s, r.value, t);
      TablesKept(s, r.value, limits);
      hide Flags, Counts;
      AllOk(s, r.value, t, limits);
    }
  }

  lemma CloseMarkPolite(s: Manager, n: Manager, t: Tid, limits: Limits)
    requires Pcs(s, limits) && Heaps(s) && Locks(s) && Tables(s, limits) && t < |s.threads| && CloseMarkStep(s, t) == Some(n)
    ensures Polite(s, n, t) && Evolves(s, n) && Heaps(n) && PcOk(n, n.threads[t], limits) && Locks(n)
  {
    hide SessionOk, Tables, PcOk, Pcs;
    CloseMarkHeap(s, n, t);
    hide Heaps;
    CloseMarkPc(s, n, t, limits);
  }

  lemma CloseMarkHeap(s: Manager, n: Manager, t: Tid)
    requires Heaps(s) && t < |s.threads| && CloseMarkStep(s, t) == Some(n)
    ensures Heaps(n)
  {
    assert SessionOk(s.heap[s.threads[t].ref]);
  }

  lemma CloseMarkPc(s: Manager, n: Manager, t: Tid, limits: Limits)
    requires t < |s.threads| && CloseMarkStep(s, t) == Some(n)
    ensures PcOk(n, n.threads[t], limits)
  {
  }

  lemma DrainKeeps(s: Manager, t: Tid, limits: Limits)
    requires Inv(s, limits) && t < |s.threads|
    ensures Keeps(s, DrainStep(s, t), limits)
  {
    hide CountedThreads, Owners, SessionLocks, Tables;
    var r := DrainStep(s, t);
    if r.Some? {
      assert PcOk(s, s.threads[t], limits);
      assert SessionOk(s.heap[s.threads[t].ref]);
      SameRoleKeeps(s, r.value, t, limits);
      SameLocks(s, r.value, t);
      SameTables(s, r.value, t, limits);
      hide Flags, Counts;
      AllOk(s, r.value, t, limits);
    }
  }

  lemma EraseIdKeeps(s: Manager, t: Tid, limits: Limits)
    requires Inv(s, limits) && t < |s.threads|
    ensures Keeps(s, EraseIdStep(s, t), limits)
  {
    hide CountedThreads, Owners, SessionLocks, Tables, Polite, PcOk, Pcs, Heaps, Evolves;
    var r := EraseIdStep(s, t);
    if r.Some? {
      ErasedTable(s, r.value, s.threads[t].id, limits);
      SameRoleKeeps(s, r.value, t, limits);
      SameLocks(s, r.value, t);
      SameHeaps(s, r.value);
      hide Flags, Counts;
      ToIdle(s, r.value, t, limits);
    }
  }

  /** A thread returns, changing nothing but the table. */
  lemma ToIdle(s: Manager, n: Manager, t: Tid, limits: Limits)
    requires Inv(s, limits) && t < |s.threads| && n == At(s, t, Idle).(table := n.table) && s.mutex.None?
    requires forall id :: id in n.table ==> id in s.table && n.table[id] == s.table[id]
    ensures Evolves(s, n) && Pcs(n, limits)
  {
    hide CountedThreads, Owners, Tables, Flags, Counts, Heaps;
    AllOk(s, n, t, limits);
  }

  lemma ShutdownKeeps(s: Manager, t: Tid, limits: Limits)
    requires Inv(s, limits) && t < |s.threads|
    ensures Keeps(s, ShutdownStep(s, t), limits)
  {
    hide CountedThreads, Owners, SessionLocks, Counts, Flags, Pcs, PcOk, Polite, Heaps, Evolves;
    var r := ShutdownStep(s, t);
    if r.Some? && r.value != s {
      SameRoleKeeps(s, r.value, t, limits);
      SameLocks(s, r.value, t);
      ShutdownPolite(s, r.value, t);
      AllOk(s, r.value, t, limits);
      hide Tables, Locks;
      SameHeaps(s, r.value);
    } else {
      EvolvesSame(s);
    }
  }

  lemma SameHeaps(s: Manager, n: Manager)
    requires Heaps(s) && n.heap == s.heap
    ensures Heaps(n)
  {
  }

  lemma ShutdownPolite(s: Manager, n: Manager, t: Tid)
    requires t < |s.threads| && s.threads[t].Idle? && ShutdownStep(s, t) == Some(n) && n != s
    ensures Polite(s, n, t) && Evolves(s, n) && forall limits :: PcOk(n, n.threads[t], limits)
  {
  }

  lemma MarkKeeps(s: Manager, t: Tid, id: Id, limits: Limits)
    requires Inv(s, limits) && t < |s.threads|
    ensures Keeps(s, MarkStep(s, t, id), limits)
  {
    hide CountedThreads, Owners, SessionLocks, Tables, Heaps, PcOk, SessionOk, Pcs, Locks, MarkingOk;
    var r := MarkStep(s, t, id);
    if r.Some? {
      var n := r.value;
      Marked(s, n, t, id, limits);
      SameRoleKeeps(s, n, t, limits);
      SameLocks(s, n, t);
      SameTables(s, n, t, limits);
      MarkPolite(s, n, t, id, limits);
      hide Flags, Counts, MarkStep, Polite;
      AllOk(s, n, t, limits);
    }
  }

  lemma MarkPolite(s: Manager, n: Manager, t: Tid, id: Id, limits: Limits)
    requires Inv(s, limits) && t < |s.threads| && MarkStep(s, t, id) == Some(n)
    ensures Polite(s, n, t) && Locks(n)
  {
    hide CountedThreads, Owners, Counts, Flags, SessionLocks, Tables, Heaps, PcOk, Pcs;
  }

  /** One more session is listed and closing. */
  lemma Marked(s: Manager, n: Manager, t: Tid, id: Id, limits: Limits)
    requires Pcs(s, limits) && Heaps(s) && t < |s.threads| && MarkStep(s, t, id) == Some(n)
    ensures PcOk(n, n.threads[t], limits) && Heaps(n)
  {
    assert PcOk(s, s.threads[t], limits);
    assert SessionOk(s.heap[s.table[id]]);
    var all := s.threads[t].all;
    forall k | 0 <= k <= |all| ensures ClosingAt(n, (all + [s.table[id]])[k]) {
      assert k < |all| ==> ClosingAt(s, all[k]);
    }
  }

  lemma MarkEndKeeps(s: Manager, t: Tid, limits: Limits)
    requires Inv(s, limits) && t < |s.threads|
    ensures Keeps(s, MarkEndStep(s, t), limits)
  {
    hide CountedThreads, Owners, SessionLocks, Tables, Polite, PcOk, Pcs, Heaps, Evolves;
    var r := MarkEndStep(s, t);
    if r.Some? {
      MarkEndPolite(s, r.value, t, limits);
      SameRoleKeeps(s, r.value, t, limits);
      SameLocks(s, r.value, t);
      SameHeaps(s, r.value);
      hide Flags, Counts;
      AllOk(s, r.value, t, limits);
    }
  }

  lemma MarkEndPolite(s: Manager, n: Manager, t: Tid, limits: Limits)
    requires Pcs(s, limits) && Locks(s) && Tables(s, limits) && t < |s.threads| && MarkEndStep(s, t) == Some(n)
    ensures Polite(s, n, t) && Evolves(s, n) && PcOk(n, n.threads[t], limits) && Locks(n) && Tables(n, limits)
  {
    assert PcOk(s, s.threads[t], limits);
  }

  lemma EvolvesSame(s: Manager)
    ensures Evolves(s, s)
  {
  }

  lemma NotifyKeeps(s: Manager, t: Tid, limits: Limits)
    requires Inv(s, limits) && t < |s.threads|
    ensures Keeps(s, NotifyStep(s, t), limits)
  {
    hide CountedThreads, Owners, SessionLocks, Tables, Polite, PcOk, Pcs, Heaps, Evolves;
    var r := NotifyStep(s, t);
    if r.Some? {
      NotifyPolite(s, r.value, t, limits);
      SameRoleKeeps(s, r.value, t, limits);
      SameLocks(s, r.value, t);
      TablesKept(s, r.value, limits);
      SameHeaps(s, r.value);
      hide Flags, Counts;
      AllOk(s, r.value, t, limits);
    }
  }

  lemma NotifyPolite(s: Manager, n: Manager, t: Tid, limits: Limits)
    requires Pcs(s, limits) && t < |s.threads| && NotifyStep(s, t) == Some(n)
    ensures Polite(s, n, t) && Evolves(s, n) && PcOk(n, n.threads[t], limits)
  {
    assert PcOk(s, s.threads[t], limits);
    ShutdownStays(s, n, s.threads[t].all, 0);
  }

  lemma DrainNextKeeps(s: Manager, t: Tid, limits: Limits)
    requires Inv(s, limits) && t < |s.threads|
    ensures Keeps(s, DrainNextStep(s, t), limits)
  {
    hide CountedThreads, Owners, SessionLocks, Tables, Polite, PcOk, Pcs, Heaps, Evolves;
    var r := DrainNextStep(s, t);
    if r.Some? {
      DrainNextPolite(s, r.value, t, limits);
      SameRoleKeeps(s, r.value, t, limits);
      SameLocks(s, r.value, t);
      TablesKept(s, r.value, limits);
      hide Flags, Counts;
      AllOk(s, r.value, t, limits);
    }
  }

  lemma DrainNextPolite(s: Manager, n: Manager, t: Tid, limits: Limits)
    requires Pcs(s, limits) && Heaps(s) && Locks(s) && t < |s.threads| && DrainNextStep(s, t) == Some(n)
    ensures Polite(s, n, t) && Evolves(s, n) && Heaps(n) && PcOk(n, n.threads[t], limits) && Locks(n)
  {
    var all, done := s.threads[t].all, s.threads[t].done;
    assert PcOk(s, s.threads[t], limits);
    assert ClosingAt(s, all[done]);
    assert SessionOk(s.heap[all[done]]);
    ShutdownStays(s, n, all, done);
  }

  lemma DrainEndKeeps(s: Manager, t: Tid, limits: Limits)
    requires Inv(s, limits) && t < |s.threads|
    ensures Keeps(s, DrainEndStep(s, t), limits)
  {
    hide CountedThreads, Owners, SessionLocks, Tables, Polite, PcOk, Pcs, Heaps, Evolves;
    var r := DrainEndStep(s, t);
    if r.Some? {
      DrainEndPolite(s, r.value, t, limits);
      SameRoleKeeps(s, r.value, t, limits);
      SameLocks(s, r.value, t);
      TablesKept(s, r.value, limits);
      SameHeaps(s, r.value);
      hide Flags, Counts;
      AllOk(s, r.value, t, limits);
    }
  }

  lemma DrainEndPolite(s: Manager, n: Manager, t: Tid, limits: Limits)
    requires Pcs(s, limits) && t < |s.threads| && DrainEndStep(s, t) == Some(n)
    ensures Polite(s, n, t) && Evolves(s, n) && PcOk(n, n.threads[t], limits)
  {
    assert PcOk(s, s.threads[t], limits);
    ShutdownStays(s, n, s.threads[t].all, |s.threads[t].all|);
  }

  lemma ClearAllKeeps(s: Manager, t: Tid, limits: Limits)
    requires Inv(s, limits) && t < |s.threads|
    ensures Keeps(s, ClearAllStep(s, t), limits)
  {
    hide CountedThreads, Owners, SessionLocks, Tables, Polite, PcOk, Pcs, Heaps, Evolves;
    var r := ClearAllStep(s, t);
    if r.Some? {
      NoTable(r.value, limits);
      SameRoleKeeps(s, r.value, t, limits);
      SameLocks(s, r.value, t);
      SameHeaps(s, r.value);
      hide Flags, Counts;
      ToIdle(s, r.value, t, limits);
    }
  }

  lemma NoTable(n: Manager, limits: Limits)
    requires n.table == map[]
    ensures Tables(n, limits)
  {
  }

  lemma StepKeeps(s: Manager, t: Tid, a: Action, limits: Limits)
    requires Inv(s, limits) && t < |s.threads|
    ensures Keeps(s, Step(s, t, a, limits), limits)
  {
    hide Inv, Keeps, BeginEvicting, ProbeStep, EraseStep, OpenStep, ReapStep, LookupStep, ClaimStep, WakeStep, TestStep, RecheckStep,
      CancelThrowStep, AdmitStep, ReleaseStep, RunStep, DecrementStep, ClearFlagStep, LeaveStep, CloseStep, CloseMarkStep, DrainStep,
      EraseIdStep, ShutdownStep, MarkStep, MarkEndStep, NotifyStep, DrainNextStep, DrainEndStep, ClearAllStep;
    match a
    case OpenBegin(uid) => BeginKeeps(s, t, true, uid, limits);
    case ReapBegin => BeginKeeps(s, t, false, 0, limits);
    case EvictProbe(id, take) => ProbeKeeps(s, t, id, take, limits);
    case EvictErase => EraseKeeps(s, t, limits);
    case OpenFinish(id) => OpenKeeps(s, t, id, limits);
    case ReapFinish => ReapKeeps(s, t, limits);
    case Lookup(uid, id, request) => LookupKeeps(s, t, uid, id, request, limits);
    case Claim => ClaimKeeps(s, t, limits);
    case Wake => WakeKeeps(s, t, limits);
    case Test => TestKeeps(s, t, limits);
    case Recheck => RecheckKeeps(s, t, limits);
    case CancelRelease => CancelReleaseKeeps(s, t, limits);
    case CancelThrow => CancelThrowKeeps(s, t, limits);
    case Admit => AdmitKeeps(s, t, limits);
    case Release => ReleaseKeeps(s, t, limits);
    case RunEngine(made) => RunKeeps(s, t, made, limits);
    case Decrement => DecrementKeeps(s, t, limits);
    case ClearFlag => ClearFlagKeeps(s, t, limits);
    case Leave => LeaveKeeps(s, t, limits);
    case CloseBegin(uid, id) => CloseKeeps(s, t, uid, id, limits);
    case CloseMark => CloseMarkKeeps(s, t, limits);
    case Drain => DrainKeeps(s, t, limits);
    case EraseId => EraseIdKeeps(s, t, limits);
    case ShutdownBegin => ShutdownKeeps(s, t, limits);
    case Mark(id) => MarkKeeps(s, t, id, limits);
    case MarkEnd => MarkEndKeeps(s, t, limits);
    case Notify => NotifyKeeps(s, t, limits);
    case DrainNext => DrainNextKeeps(s, t, limits);
    case DrainEnd => DrainEndKeeps(s, t, limits);
    case ClearAll => ClearAllKeeps(s, t, limits);
  }

  // ----- runs -----

  datatype Move = Move(thread: Tid, action: Action)

  ghost predicate Initial(s: Manager) {
    s.heap == [] && s.table == map[] && !s.shuttingDown && s.running == 0 && s.mutex.None? && s.predictionMutex.None? &&
    forall t :: 0 <= t < |s.threads| ==> s.threads[t] == Idle
  }

  /** An interleaving: every state is one step of one thread after the one before. */
  ghost predicate IsRun(states: seq<Manager>, moves: seq<Move>, limits: Limits) {
    |states| == |moves| + 1 && Initial(states[0]) &&
    forall i :: 0 <= i < |moves| ==>
      moves[i].thread < |states[i].threads| && Step(states[i], moves[i].thread, moves[i].action, limits) == Some(states[i + 1])
  }

  lemma {:induction false} IdleThreads(threads: seq<Pc>)
    requires forall t :: 0 <= t < |threads| ==> threads[t] == Idle
    ensures CountedThreads(threads) == 0
  {
    if threads != [] {
      assert forall t :: 0 <= t < |threads| - 1 ==> threads[1..][t] == threads[t + 1];
      IdleThreads(threads[1..]);
    }
  }

  lemma InitialIsSafe(s: Manager, limits: Limits)
    requires Initial(s)
    ensures Inv(s, limits)
  {
    IdleThreads(s.threads);
  }

  /** Over every interleaving: the running count is exact and within the limit, flags mark exactly the owned
      sessions, the table stays within its limit and accepted request ids strictly increase. */
  lemma {:induction false} EveryRunIsSafe(states: seq<Manager>, moves: seq<Move>, limits: Limits, i: nat)
    requires IsRun(states, moves, limits) && i < |states|
    ensures Inv(states[i], limits)
  {
    hide Inv, Step, Initial;
    if i == 0 {
      InitialIsSafe(states[0], limits);
    } else {
      EveryRunIsSafe(states, moves, limits, i - 1);
      StepKeeps(states[i - 1], moves[i - 1].thread, moves[i - 1].action, limits);
    }
  }

  /** What holds of a session at one moment of a run holds later: closing and destruction are final, and a
      closing session accepts no request any more. */
  lemma {:induction false} RunEvolves(states: seq<Manager>, moves: seq<Move>, limits: Limits, i: nat, j: nat)
    requires IsRun(states, moves, limits) && i <= j < |states|
    ensures Evolves(states[i], states[j])
    decreases j
  {
    hide Step, Inv, Evolves;
    if i == j {
      EvolvesSame(states[i]);
    } else {
      EveryRunIsSafe(states, moves, limits, j - 1);
      StepKeeps(states[j - 1], moves[j - 1].thread, moves[j - 1].action, limits);
      RunEvolves(states, moves, limits, i, j - 1);
      EvolvesTwice(states[i], states[j - 1], states[j]);
    }
  }

  lemma EvolvesTwice(a: Manager, b: Manager, c: Manager)
    requires Evolves(a, b) && Evolves(b, c)
    ensures Evolves(a, c)
  {
  }

  // ----- safe close -----

  /** The step that resets the engine of `ref` because of a close or a shutdown. */
  ghost predicate Destroys(s: Manager, n: Manager, ref: Ref) {
    ref < |s.heap| && ref < |n.heap| && !s.heap[ref].destroyed && n.heap[ref].destroyed
  }

  lemma DestroyStep(s: Manager, t: Tid, a: Action, limits: Limits, n: Manager, ref: Ref)
    requires Inv(s, limits) && t < |s.threads| && Step(s, t, a, limits) == Some(n) && Destroys(s, n, ref)
    ensures !s.heap[ref].inFlight && s.heap[ref].closing
  {
    hide CountedThreads, Owners, Counts, Flags, Tables, Locks, SessionLocks, Heaps;
    assert PcOk(s, s.threads[t], limits);
    if a.DrainNext? {
      assert ClosingAt(s, s.threads[t].all[s.threads[t].done]);
    }
  }

  /** Over every interleaving: an engine is only ever reset while no thread is between the claim and the release
      of that session, and it never comes back. */
  lemma EngineIsDestroyedSafely(states: seq<Manager>, moves: seq<Move>, limits: Limits, i: nat, j: nat, ref: Ref)
    requires IsRun(states, moves, limits) && i < |moves| && i < j < |states| && Destroys(states[i], states[i + 1], ref)
    ensures forall t :: 0 <= t < |states[i].threads| ==> !Owns(states[i].threads[t], ref)
    ensures ref < |states[j].heap| && !states[j].heap[ref].engine && !states[j].heap[ref].inFlight
    ensures forall t :: 0 <= t < |states[j].threads| ==> !Owns(states[j].threads[t], ref)
  {
    hide CountedThreads, Owners, Owns, Step;
    EveryRunIsSafe(states, moves, limits, i);
    EveryRunIsSafe(states, moves, limits, j);
    RunEvolves(states, moves, limits, i + 1, j);
    DestroyStep(states[i], moves[i].thread, moves[i].action, limits, states[i + 1], ref);
    assert SessionOk(states[j].heap[ref]);
    NoOwners(states[i].threads, ref);
    NoOwners(states[j].threads, ref);
  }

  // ----- shutdown -----

  lemma ClearsAfterDraining(s: Manager, t: Tid, limits: Limits)
    requires t < |s.threads| && Step(s, t, ClearAll, limits).Some?
    ensures s.threads[t].ClearingAll?
  {
  }

  /** When a shutdown clears the table, every session still in it is destroyed and owned by nobody. */
  lemma ShutdownDrainsTheTable(states: seq<Manager>, moves: seq<Move>, limits: Limits, i: nat, id: Id)
    requires IsRun(states, moves, limits) && i < |moves| && moves[i].action.ClearAll? && id in states[i].table
    ensures var s := states[i];
      s.shuttingDown && s.table[id] < |s.heap| && s.heap[s.table[id]].destroyed && !s.heap[s.table[id]].engine &&
      forall t :: 0 <= t < |s.threads| ==> !Owns(s.threads[t], s.table[id])
  {
    hide CountedThreads, Owners, Owns;
    var s := states[i];
    EveryRunIsSafe(states, moves, limits, i);
    assert Step(s, moves[i].thread, moves[i].action, limits) == Some(states[i + 1]);
    ClearsAfterDraining(s, moves[i].thread, limits);
    assert PcOk(s, s.threads[moves[i].thread], limits);
    var all := s.threads[moves[i].thread].all;
    var k :| 0 <= k < |all| && all[k] == s.table[id];
    assert DestroyedAt(s, all[k]);
    assert SessionOk(s.heap[s.table[id]]);
    NoOwners(s.threads, s.table[id]);
  }
}
