/** What a prediction that cannot release its session does to the other threads, and a run that leads there
    (ime-unix-service/src/session/session_manager.cpp:133-144). */
module SessionDeadlock {
  import opened Wrappers
  import opened SessionManager
  import opened SessionSafety
  import opened SessionRelease

  // ----- close and shutdown -----

  /** A close or a shutdown that still has to wait for the session. */
  predicate WaitsFor(pc: Pc, ref: Ref) {
    match pc
    case Draining(r, _) => r == ref
    case Marking(all, _) => ref in all
    case Notifying(all) => ref in all
    case DrainingAll(all, done) => done <= |all| && ref in all[done..]
    case _ => false
  }

  /** Neither may drain the session. */
  lemma NothingDrains(s: Manager, u: Tid, ref: Ref, c: Tid, limits: Limits)
    requires Inv(s, limits) && Doomed(s, u, ref) && c < |s.threads|
    ensures s.threads[c].Draining? && s.threads[c].ref == ref ==> Step(s, c, Drain, limits) == None
    ensures s.threads[c].DrainingAll? && s.threads[c].done < |s.threads[c].all| && s.threads[c].all[s.threads[c].done] == ref ==>
      Step(s, c, DrainNext, limits) == None
  {
    hide Inv, Doomed;
    DoomedIsFlagged(s, u, ref, limits);
    DoomedExists(s, u, ref);
  }

  lemma DoomedExists(s: Manager, u: Tid, ref: Ref)
    requires Doomed(s, u, ref)
    ensures u < |s.threads| && ref < |s.heap| && s.heap[ref].closing
  {
  }

  lemma WaitsMove(s: Manager, c: Tid, a: Action, limits: Limits, n: Manager, ref: Ref)
    requires c < |s.threads| && ref < |s.heap| && s.heap[ref].inFlight && WaitsFor(s.threads[c], ref) && Step(s, c, a, limits) == Some(n)
    ensures c < |n.threads| && WaitsFor(n.threads[c], ref)
  {
    match s.threads[c]
    case Draining(_, _) =>
    case Marking(all, _) => MarkingWaits(s, c, a, limits, n, ref);
    case Notifying(all) => assert all[0..] == all;
    case DrainingAll(all, done) => DrainingWaits(s, c, a, limits, n, ref);
  }

  lemma MarkingWaits(s: Manager, c: Tid, a: Action, limits: Limits, n: Manager, ref: Ref)
    requires c < |s.threads| && s.threads[c].Marking? && WaitsFor(s.threads[c], ref) && Step(s, c, a, limits) == Some(n)
    ensures c < |n.threads| && WaitsFor(n.threads[c], ref)
  {
  }

  lemma DrainingWaits(s: Manager, c: Tid, a: Action, limits: Limits, n: Manager, ref: Ref)
    requires c < |s.threads| && s.threads[c].DrainingAll? && WaitsFor(s.threads[c], ref)
    requires ref < |s.heap| && s.heap[ref].inFlight && Step(s, c, a, limits) == Some(n)
    ensures c < |n.threads| && WaitsFor(n.threads[c], ref)
  {
    var all, done := s.threads[c].all, s.threads[c].done;
    assert a.DrainNext? ==> all[done..] == [all[done]] + all[done + 1..];
  }

  /** Over every interleaving: a close of the session, or a shutdown that lists it, never returns. */
  lemma {:induction false} CloseNeverReturns(states: seq<Manager>, moves: seq<Move>, limits: Limits, i: nat, j: nat, u: Tid, ref: Ref, c: Tid)
    requires IsRun(states, moves, limits) && i <= j < |states| && Doomed(states[i], u, ref)
    requires c < |states[i].threads| && WaitsFor(states[i].threads[c], ref)
    ensures c < |states[j].threads| && WaitsFor(states[j].threads[c], ref)
    decreases j
  {
    hide Step, Inv, Doomed, WaitsFor;
    if i < j {
      CloseNeverReturns(states, moves, limits, i, j - 1, u, ref, c);
      WaitingIsNeverReleased(states, moves, limits, i, j - 1, u, ref);
      DoomedExists(states[j - 1], u, ref);
      if moves[j - 1].thread == c {
        WaitsMove(states[j - 1], c, moves[j - 1].action, limits, states[j], ref);
      } else {
        OtherMove(states[j - 1], moves[j - 1].thread, moves[j - 1].action, limits, states[j], c);
      }
    }
  }

  /** Over every interleaving: no shutdown clears the table while the session is in it. */
  lemma ShutdownNeverClears(states: seq<Manager>, moves: seq<Move>, limits: Limits, i: nat, j: nat, u: Tid, ref: Ref, id: Id)
    requires IsRun(states, moves, limits) && i <= j < |moves| && Doomed(states[i], u, ref)
    requires id in states[j].table && states[j].table[id] == ref
    ensures !moves[j].action.ClearAll?
  {
    hide Step, Inv, Owns;
    WaitingIsNeverReleased(states, moves, limits, i, j, u, ref);
    DoomedOwns(states[j], u, ref);
    if moves[j].action.ClearAll? {
      ShutdownDrainsTheTable(states, moves, limits, j, id);
    }
  }

  lemma DoomedOwns(s: Manager, u: Tid, ref: Ref)
    requires Doomed(s, u, ref)
    ensures Owns(s.threads[u], ref)
  {
  }

  // ----- where the second lock blocks -----

  /** A thread that holds the manager's mutex and still has to lock the session's. */
  ghost predicate NeedsLock(s: Manager, c: Tid, ref: Ref) {
    c < |s.threads| &&
    match s.threads[c]
    case Closing(r, _) => r == ref
    case Evicting(_, _, unseen) => Listed(s, unseen, ref)
    case Chosen(_, _, unseen, _) => Listed(s, unseen, ref)
    case Marking(_, unmarked) => Listed(s, unmarked, ref)
    case _ => false
  }

  ghost predicate Listed(s: Manager, ids: set<Id>, ref: Ref) {
    exists id :: id in ids && id in s.table && s.table[id] == ref
  }

  lemma NeedsMutex(s: Manager, c: Tid, ref: Ref, limits: Limits)
    requires Inv(s, limits) && NeedsLock(s, c, ref)
    ensures s.mutex == Some(c)
  {
    hide CountedThreads, Owners, Tables, Flags, Counts, Heaps, Pcs, SessionLocks;
  }

  lemma Locked(s: Manager, u: Tid, ref: Ref)
    requires SessionLocks(s) && u < |s.threads| && s.threads[u] == Cancelling(ref)
    ensures ref < |s.heap| && s.heap[ref].lock.Some?
  {
  }

  lemma NeedsMove(s: Manager, c: Tid, a: Action, limits: Limits, n: Manager, ref: Ref)
    requires Pcs(s, limits) && NeedsLock(s, c, ref) && ref < |s.heap| && s.heap[ref].lock.Some? && s.heap[ref].closing
    requires Step(s, c, a, limits) == Some(n)
    ensures NeedsLock(n, c, ref)
  {
    hide Pcs;
    match s.threads[c]
    case Closing(_, _) =>
    case Evicting(_, _, _) => EvictingNeeds(s, c, a, limits, n, ref);
    case Chosen(_, _, _, _) => ChosenNeeds(s, c, a, limits, n, ref);
    case Marking(_, _) => MarkingNeeds(s, c, a, limits, n, ref);
  }

  lemma EvictingNeeds(s: Manager, c: Tid, a: Action, limits: Limits, n: Manager, ref: Ref)
    requires NeedsLock(s, c, ref) && ref < |s.heap| && s.heap[ref].lock.Some? && s.heap[ref].closing && s.threads[c].Evicting?
    requires Step(s, c, a, limits) == Some(n)
    ensures NeedsLock(n, c, ref)
  {
    var unseen := s.threads[c].unseen;
    var id :| id in unseen && id in s.table && s.table[id] == ref;
    assert a.EvictProbe?;
    assert Listed(n, n.threads[c].unseen, ref);
  }

  lemma MarkingNeeds(s: Manager, c: Tid, a: Action, limits: Limits, n: Manager, ref: Ref)
    requires NeedsLock(s, c, ref) && ref < |s.heap| && s.heap[ref].lock.Some? && s.threads[c].Marking?
    requires Step(s, c, a, limits) == Some(n)
    ensures NeedsLock(n, c, ref)
  {
    var unmarked := s.threads[c].unmarked;
    var id :| id in unmarked && id in s.table && s.table[id] == ref;
    assert a.Mark?;
    assert Listed(n, n.threads[c].unmarked, ref);
  }

  lemma ChosenNeeds(s: Manager, c: Tid, a: Action, limits: Limits, n: Manager, ref: Ref)
    requires Pcs(s, limits) && NeedsLock(s, c, ref) && ref < |s.heap| && s.heap[ref].closing && s.threads[c].Chosen?
    requires Step(s, c, a, limits) == Some(n)
    ensures NeedsLock(n, c, ref)
  {
    var pc := s.threads[c];
    var id :| id in pc.unseen && id in s.table && s.table[id] == ref;
    assert PcOk(s, pc, limits);
    assert id in n.table && n.table[id] == ref;
    assert Listed(n, n.threads[c].unseen, ref);
  }

  lemma NeedsOther(s: Manager, t: Tid, a: Action, limits: Limits, n: Manager, c: Tid, ref: Ref)
    requires Inv(s, limits) && NeedsLock(s, c, ref) && t < |s.threads| && t != c && Step(s, t, a, limits) == Some(n)
    ensures NeedsLock(n, c, ref)
  {
    hide Inv;
    NeedsMutex(s, c, ref, limits);
    OtherMove(s, t, a, limits, n, c);
    MutexHolder(s, limits, t);
    SameTable(s, t, a, limits, n);
    SameNeeds(s, n, c, ref);
  }

  lemma MutexHolder(s: Manager, limits: Limits, t: Tid)
    requires Inv(s, limits) && t < |s.threads|
    ensures s.mutex == Some(t) <==> HoldsMutex(s.threads[t])
  {
  }

  /** Only a thread that holds the manager's mutex changes the table. */
  lemma SameTable(s: Manager, t: Tid, a: Action, limits: Limits, n: Manager)
    requires t < |s.threads| && s.mutex.Some? && !HoldsMutex(s.threads[t]) && Step(s, t, a, limits) == Some(n)
    ensures n.table == s.table
  {
    hide Step;
    if RoleRef(s.threads[t]).Some? {
      PredictingTable(s, t, a, limits, n);
    } else {
      OtherTable(s, t, a, limits, n);
    }
  }

  lemma PredictingTable(s: Manager, t: Tid, a: Action, limits: Limits, n: Manager)
    requires t < |s.threads| && RoleRef(s.threads[t]).Some? && Step(s, t, a, limits) == Some(n)
    ensures n.table == s.table
  {
  }

  lemma OtherTable(s: Manager, t: Tid, a: Action, limits: Limits, n: Manager)
    requires t < |s.threads| && s.mutex.Some? && !HoldsMutex(s.threads[t]) && RoleRef(s.threads[t]).None? && Step(s, t, a, limits) == Some(n)
    ensures n.table == s.table
  {
  }

  lemma SameNeeds(s: Manager, n: Manager, c: Tid, ref: Ref)
    requires NeedsLock(s, c, ref) && n.table == s.table && c < |n.threads| && n.threads[c] == s.threads[c]
    ensures NeedsLock(n, c, ref)
  {
  }

  lemma NeedsStep(s: Manager, t: Tid, a: Action, limits: Limits, n: Manager, u: Tid, c: Tid, ref: Ref)
    requires Inv(s, limits) && t < |s.threads| && Step(s, t, a, limits) == Some(n)
    requires u < |s.threads| && s.threads[u] == Cancelling(ref) && Doomed(s, u, ref) && NeedsLock(s, c, ref)
    ensures NeedsLock(n, c, ref)
  {
    hide Step, Doomed, NeedsLock, Counts, Flags, Tables, Locks, Heaps, Pcs, SessionLocks;
    if t == c {
      Locked(s, u, ref);
      DoomedExists(s, u, ref);
      NeedsMove(s, c, a, limits, n, ref);
    } else {
      NeedsOther(s, t, a, limits, n, c, ref);
    }
  }

  /** Over every interleaving: while the cancelled call is blocked, a thread that needs the session's mutex under
      the manager's mutex keeps the latter for good, so nothing is opened, looked up, closed or reaped again. */
  lemma {:induction false} MutexIsNeverFreed(states: seq<Manager>, moves: seq<Move>, limits: Limits, i: nat, j: nat, u: Tid, ref: Ref, c: Tid)
    requires IsRun(states, moves, limits) && i <= j < |states| && NeedsLock(states[i], c, ref)
    requires forall k :: i <= k <= j ==> u < |states[k].threads| && states[k].threads[u] == Cancelling(ref)
    ensures NeedsLock(states[j], c, ref) && states[j].mutex == Some(c)
    decreases j
  {
    hide Step, Inv, Doomed, NeedsLock;
    EveryRunIsSafe(states, moves, limits, j);
    if i < j {
      MutexIsNeverFreed(states, moves, limits, i, j - 1, u, ref, c);
      EveryRunIsSafe(states, moves, limits, j - 1);
      StuckIsClosing(states[j - 1], u, ref, limits);
      NeedsStep(states[j - 1], moves[j - 1].thread, moves[j - 1].action, limits, states[j], u, c, ref);
    }
    NeedsMutex(states[j], c, ref, limits);
  }

  // ----- a run that leads there -----

  /** Two sessions, 1 and 2, of user 7; one prediction at a time; threads 0, 1 and 2. */
  const ONE_AT_A_TIME := Limits(2, 1)

  function Opened(id: Id): Session {
    Session(id, 7, false, false, 0, false, None, [], false)
  }

  function Claimed(id: Id): Session {
    Session(id, 7, false, false, 1, true, None, [1], false)
  }

  function Between(heap: seq<Session>, running: nat, threads: seq<Pc>): Manager {
    Manager(heap, if |heap| == 2 then map[1 := 0, 2 := 1] else if |heap| == 1 then map[1 := 0] else map[], false, running, None, None, threads)
  }

  ghost predicate LeadsTo(states: seq<Manager>, moves: seq<Move>, s: Manager) {
    IsRun(states, moves, ONE_AT_A_TIME) && states[|moves|] == s
  }

  predicate Same(a: Manager, b: Manager) {
    && a.heap == b.heap && a.table == b.table && a.threads == b.threads && a.running == b.running
    && a.mutex == b.mutex && a.predictionMutex == b.predictionMutex && a.shuttingDown == b.shuttingDown
  }

  lemma Next(states: seq<Manager>, moves: seq<Move>, s: Manager, t: Tid, a: Action, n: Manager)
      returns (longer: seq<Manager>, more: seq<Move>)
    requires LeadsTo(states, moves, s) && t < |s.threads| && Step(s, t, a, ONE_AT_A_TIME).Some?
    requires Same(Step(s, t, a, ONE_AT_A_TIME).value, n)
    ensures LeadsTo(longer, more, n)
  {
    hide Step;
    longer, more := states + [n], moves + [Move(t, a)];
  }

  lemma OpensFirst() returns (states: seq<Manager>, moves: seq<Move>)
    ensures LeadsTo(states, moves, Between([Opened(1)], 0, [Idle, Idle, Idle]))
  {
    hide LeadsTo;
    var s := Between([], 0, [Idle, Idle, Idle]);
    states, moves := Begins(s);
    var s1 := s.(threads := [Evicting(true, 7, {}), Idle, Idle], mutex := Some(0));
    assert s.table.Keys == {};
    states, moves := Next(states, moves, s, 0, OpenBegin(7), s1);
    assert map[][1 := 0] == map[1 := 0];
    states, moves := Next(states, moves, s1, 0, OpenFinish(1), Between([Opened(1)], 0, [Idle, Idle, Idle]));
  }

  lemma Begins(s: Manager) returns (states: seq<Manager>, moves: seq<Move>)
    requires Initial(s)
    ensures LeadsTo(states, moves, s)
  {
    states, moves := [s], [];
  }

  lemma OpensSecond() returns (states: seq<Manager>, moves: seq<Move>)
    ensures LeadsTo(states, moves, Between([Opened(1), Opened(2)], 0, [Idle, Idle, Idle]))
  {
    hide LeadsTo;
    var s := Between([Opened(1)], 0, [Idle, Idle, Idle]);
    states, moves := OpensFirst();
    var s1 := s.(threads := [Evicting(true, 7, {1}), Idle, Idle], mutex := Some(0));
    assert s.table.Keys == {1};
    states, moves := Next(states, moves, s, 0, OpenBegin(7), s1);
    var s2 := s1.(threads := [Evicting(true, 7, {}), Idle, Idle]);
    assert {1} - {1} == {};
    states, moves := Next(states, moves, s1, 0, EvictProbe(1, false), s2);
    states, moves := Next(states, moves, s2, 0, OpenFinish(2), Between([Opened(1), Opened(2)], 0, [Idle, Idle, Idle]));
  }

  /** Thread `t` looks up and claims a session. */
  lemma Claims(states: seq<Manager>, moves: seq<Move>, s: Manager, t: Tid, id: Id, n: Manager)
      returns (longer: seq<Manager>, more: seq<Move>)
    requires LeadsTo(states, moves, s) && t < |s.threads| && s.threads[t] == Idle && s.mutex.None? && !s.shuttingDown
    requires id in s.table && s.table[id] < |s.heap| && s.heap[s.table[id]] == Opened(id)
    requires Same(s.(threads := s.threads[t := Queued(s.table[id])], heap := s.heap[s.table[id] := Claimed(id)]), n)
    ensures LeadsTo(longer, more, n)
  {
    hide LeadsTo;
    var s1 := s.(threads := s.threads[t := Found(s.table[id], 1)]);
    longer, more := Next(states, moves, s, t, Lookup(7, id, 1), s1);
    assert Opened(id).accepted + [1] == Claimed(id).accepted;
    longer, more := Next(longer, more, s1, t, Claim, n);
  }

  /** Thread 0 is admitted to session 1. */
  lemma AdmitsFirst() returns (states: seq<Manager>, moves: seq<Move>)
    ensures LeadsTo(states, moves, Between([Claimed(1), Opened(2)], 1, [Running(0), Idle, Idle]))
  {
    hide LeadsTo;
    states, moves := OpensSecond();
    var s := Between([Claimed(1), Opened(2)], 0, [Queued(0), Idle, Idle]);
    states, moves := Claims(states, moves, Between([Opened(1), Opened(2)], 0, [Idle, Idle, Idle]), 0, 1, s);
    var s1 := s.(threads := [Testing(0), Idle, Idle], predictionMutex := Some(0));
    states, moves := Next(states, moves, s, 0, Wake, s1);
    var s2 := s1.(threads := [Woken(0), Idle, Idle]);
    states, moves := Next(states, moves, s1, 0, Test, s2);
    var s3 := s2.(threads := [Checked(0), Idle, Idle]);
    states, moves := Next(states, moves, s2, 0, Recheck, s3);
    states, moves := Next(states, moves, s3, 0, Admit, Between([Claimed(1), Opened(2)], 1, [Running(0), Idle, Idle]));
  }

  /** Thread 1 finds no place for session 2 and waits. */
  lemma SecondWaits() returns (states: seq<Manager>, moves: seq<Move>)
    ensures LeadsTo(states, moves, Between([Claimed(1), Claimed(2)], 1, [Running(0), Queued(1), Idle]))
  {
    hide LeadsTo;
    states, moves := AdmitsFirst();
    var s := Between([Claimed(1), Claimed(2)], 1, [Running(0), Queued(1), Idle]);
    states, moves := Claims(states, moves, Between([Claimed(1), Opened(2)], 1, [Running(0), Idle, Idle]), 1, 2, s);
    var s1 := s.(threads := [Running(0), Testing(1), Idle], predictionMutex := Some(1));
    states, moves := Next(states, moves, s, 1, Wake, s1);
    states, moves := Next(states, moves, s1, 1, Test, s);
  }

  /** Thread 2 closes session 2, and thread 1 blocks on itself. */
  lemma QueuedPredictionBlocks() returns (states: seq<Manager>, moves: seq<Move>, s: Manager)
    ensures LeadsTo(states, moves, s) && s.threads == [Running(0), Cancelling(1), Draining(1, 2)]
    ensures Doomed(s, 1, 1) && WaitsFor(s.threads[2], 1) && s.heap[1].lock == Some(1)
  {
    hide LeadsTo;
    states, moves := SecondWaits();
    var s0 := Between([Claimed(1), Claimed(2)], 1, [Running(0), Queued(1), Idle]);
    var s1 := s0.(threads := [Running(0), Queued(1), Closing(1, 2)], mutex := Some(2));
    states, moves := Next(states, moves, s0, 2, CloseBegin(7, 2), s1);
    var closing := Claimed(2).(closing := true);
    var s2 := Between([Claimed(1), closing], 1, [Running(0), Queued(1), Draining(1, 2)]);
    states, moves := Next(states, moves, s1, 2, CloseMark, s2);
    var s3 := s2.(threads := [Running(0), Testing(1), Draining(1, 2)], predictionMutex := Some(1));
    states, moves := Next(states, moves, s2, 1, Wake, s3);
    var s4 := s3.(threads := [Running(0), Woken(1), Draining(1, 2)]);
    states, moves := Next(states, moves, s3, 1, Test, s4);
    s := Between([Claimed(1), closing.(lock := Some(1))], 1, [Running(0), Cancelling(1), Draining(1, 2)]);
    states, moves := Next(states, moves, s4, 1, Recheck, s);
  }
}
