/** Which predictions release their session (predict in ime-unix-service/src/session/session_manager.cpp).

    The source means to cancel a prediction whose session starts closing while it waits. The cancelled call
    locks the session's mutex while it still holds it, so it never clears the flag. These lemmas say exactly
    which calls do. */
module SessionRelease {
  import opened Wrappers
  import opened SessionManager
  import opened SessionSafety

  /** A claimed prediction that has not passed the closing check. */
  predicate Waiting(pc: Pc, ref: Ref) {
    pc == Queued(ref) || pc == Testing(ref) || pc == Woken(ref)
  }

  predicate Stuck(pc: Pc, ref: Ref) {
    pc == Cancelling(ref) || pc == Abandoned(ref)
  }

  /** The session is closing and thread `u`, which claimed it, has not passed the closing check. */
  predicate Doomed(s: Manager, u: Tid, ref: Ref) {
    && u < |s.threads| && ref < |s.heap| && s.heap[ref].closing
    && (Waiting(s.threads[u], ref) || Stuck(s.threads[u], ref))
  }

  // ----- what a doomed prediction does -----

  lemma WaitingMove(s: Manager, u: Tid, a: Action, limits: Limits, n: Manager, ref: Ref)
    requires Doomed(s, u, ref) && Waiting(s.threads[u], ref) && Step(s, u, a, limits) == Some(n)
    ensures Doomed(n, u, ref)
  {
  }

  lemma StuckMove(s: Manager, u: Tid, a: Action, limits: Limits, n: Manager, ref: Ref)
    requires SessionLocks(s) && Doomed(s, u, ref) && Stuck(s.threads[u], ref) && Step(s, u, a, limits) == Some(n)
    ensures Doomed(n, u, ref)
  {
    hide SessionLocks;
    CancelReleaseStuck(s, u);
  }

  lemma CancelReleaseStuck(s: Manager, u: Tid)
    requires SessionLocks(s) && u < |s.threads|
    ensures CancelReleaseStep(s, u) == None
  {
  }

  lemma OtherMove(s: Manager, t: Tid, a: Action, limits: Limits, n: Manager, u: Tid)
    requires t < |s.threads| && u < |s.threads| && u != t && Step(s, t, a, limits) == Some(n)
    ensures u < |n.threads| && n.threads[u] == s.threads[u]
  {
  }

  lemma DoomedStep(s: Manager, t: Tid, a: Action, limits: Limits, n: Manager, u: Tid, ref: Ref)
    requires Inv(s, limits) && t < |s.threads| && Doomed(s, u, ref) && Step(s, t, a, limits) == Some(n)
    ensures Doomed(n, u, ref) && Inv(n, limits)
  {
    hide Step, Counts, Flags, Tables, Locks, Heaps, Pcs, SessionLocks;
    StepKeeps(s, t, a, limits);
    if t == u {
      if Waiting(s.threads[u], ref) {
        WaitingMove(s, u, a, limits, n, ref);
      } else {
        StuckMove(s, u, a, limits, n, ref);
      }
    } else {
      OtherMove(s, t, a, limits, n, u);
    }
  }

  lemma DoomedIsFlagged(s: Manager, u: Tid, ref: Ref, limits: Limits)
    requires Inv(s, limits) && Doomed(s, u, ref)
    ensures s.heap[ref].inFlight
  {
    hide Owners, CountedThreads, SessionLocks, Tables, Locks, Heaps, Pcs;
    OwnedIsFlagged(s, u, ref);
  }

  /** Over every interleaving: a prediction whose session starts closing before its check is never admitted and
      never releases the session, and its call never returns. */
  lemma {:induction false} WaitingIsNeverReleased(states: seq<Manager>, moves: seq<Move>, limits: Limits, i: nat, j: nat, u: Tid, ref: Ref)
    requires IsRun(states, moves, limits) && i <= j < |states| && Doomed(states[i], u, ref)
    ensures Doomed(states[j], u, ref) && states[j].heap[ref].inFlight
    decreases j
  {
    hide Step, Doomed, Inv;
    EveryRunIsSafe(states, moves, limits, j);
    if i < j {
      WaitingIsNeverReleased(states, moves, limits, i, j - 1, u, ref);
      EveryRunIsSafe(states, moves, limits, j - 1);
      DoomedStep(states[j - 1], moves[j - 1].thread, moves[j - 1].action, limits, states[j], u, ref);
    }
    DoomedIsFlagged(states[j], u, ref, limits);
  }

  // ----- continuations -----

  /** The state after `moves`; None when one of them cannot be made. */
  function Play(s: Manager, moves: seq<Move>, limits: Limits): Option<Manager>
    decreases |moves|
  {
    if moves == [] then Some(s)
    else if moves[0].thread >= |s.threads| then None
    else
      match Step(s, moves[0].thread, moves[0].action, limits)
      case None => None
      case Some(n) => Play(n, moves[1..], limits)
  }

  ghost predicate Releases(s: Manager, moves: seq<Move>, ref: Ref, limits: Limits) {
    var n := Play(s, moves, limits);
    n.Some? && ref < |n.value.heap| && !n.value.heap[ref].inFlight
  }

  /** Some continuation clears the flag of the session. */
  ghost predicate CanRelease(s: Manager, ref: Ref, limits: Limits) {
    exists moves :: Releases(s, moves, ref, limits)
  }

  lemma AlreadyReleased(s: Manager, ref: Ref, limits: Limits)
    requires ref < |s.heap| && !s.heap[ref].inFlight
    ensures CanRelease(s, ref, limits)
  {
    assert Releases(s, [], ref, limits);
  }

  lemma StepThen(s: Manager, t: Tid, a: Action, limits: Limits, n: Manager, ref: Ref)
    requires t < |s.threads| && Step(s, t, a, limits) == Some(n) && CanRelease(n, ref, limits)
    ensures CanRelease(s, ref, limits)
  {
    hide Step;
    var rest :| Releases(n, rest, ref, limits);
    var moves := [Move(t, a)] + rest;
    assert moves[1..] == rest;
    assert Releases(s, moves, ref, limits);
  }

  lemma {:induction false} PlayThen(s: Manager, moves: seq<Move>, limits: Limits, n: Manager, ref: Ref)
    requires Play(s, moves, limits) == Some(n) && CanRelease(n, ref, limits)
    ensures CanRelease(s, ref, limits)
    decreases |moves|
  {
    hide Step, CanRelease;
    if moves != [] {
      var next := Step(s, moves[0].thread, moves[0].action, limits).value;
      PlayThen(next, moves[1..], limits, n, ref);
      StepThen(s, moves[0].thread, moves[0].action, limits, next, ref);
    }
  }

  lemma {:induction false} DoomedPlays(s: Manager, moves: seq<Move>, limits: Limits, u: Tid, ref: Ref)
    requires Inv(s, limits) && Doomed(s, u, ref)
    ensures !Releases(s, moves, ref, limits)
    decreases |moves|
  {
    hide Step, Inv, Doomed;
    if moves == [] {
      DoomedIsFlagged(s, u, ref, limits);
    } else if moves[0].thread < |s.threads| && Step(s, moves[0].thread, moves[0].action, limits).Some? {
      var next := Step(s, moves[0].thread, moves[0].action, limits).value;
      DoomedStep(s, moves[0].thread, moves[0].action, limits, next, u, ref);
      DoomedPlays(next, moves[1..], limits, u, ref);
    }
  }

  // ----- every other prediction can release its session -----

  lemma {:induction false} TwoOwners(threads: seq<Pc>, a: Tid, b: Tid, ref: Ref)
    requires a < b < |threads| && Owns(threads[a], ref) && Owns(threads[b], ref)
    ensures Owners(threads, ref) >= 2
  {
    hide Owns;
    if a == 0 {
      OwnerCounts(threads[1..], b - 1, ref);
    } else {
      TwoOwners(threads[1..], a - 1, b - 1, ref);
    }
  }

  /** Nobody else holds the mutex of a session that a thread owns. */
  lemma OwnLockFree(s: Manager, u: Tid, ref: Ref, limits: Limits)
    requires Inv(s, limits) && u < |s.threads| && ref < |s.heap| && RoleRef(s.threads[u]) == Some(ref) && !s.threads[u].Cancelling?
    ensures Free(s, ref)
  {
    hide Owners, CountedThreads, Tables, Locks, Heaps, Pcs;
    if s.heap[ref].lock.Some? {
      var v := s.heap[ref].lock.value;
      assert Owns(s.threads[u], ref) && Owns(s.threads[v], ref);
      TwoOwners(s.threads, if u < v then u else v, if u < v then v else u, ref);
      assert false;
    }
  }

  /** The session a thread owns exists. */
  lemma RoleExists(s: Manager, u: Tid, limits: Limits)
    requires Inv(s, limits) && u < |s.threads| && RoleRef(s.threads[u]).Some?
    ensures RoleRef(s.threads[u]).value < |s.heap|
  {
    hide Owners, CountedThreads, Tables, Locks, Heaps, Flags, Counts, SessionLocks;
    assert PcOk(s, s.threads[u], limits);
  }

  lemma HolderIs(s: Manager, limits: Limits)
    requires Inv(s, limits)
    ensures forall t: nat :: t < |s.threads| ==> (s.predictionMutex == Some(t) <==> HoldsPrediction(s.threads[t]))
    ensures s.predictionMutex.Some? ==> s.predictionMutex.value < |s.threads|
  {
  }

  lemma Keeping(s: Manager, t: Tid, a: Action, limits: Limits, n: Manager)
    requires Inv(s, limits) && t < |s.threads| && Step(s, t, a, limits) == Some(n)
    ensures Inv(n, limits)
  {
    hide Inv, Step;
    StepKeeps(s, t, a, limits);
  }

  /** How many steps the holder of the prediction mutex keeps it at most. */
  function Rank(pc: Pc): nat {
    if pc.Testing? then 3 else if pc.Woken? then 2 else if pc.Checked? then 1 else 0
  }

  /** What the holder of the prediction mutex does next. */
  function NextAction(pc: Pc): Action {
    if pc.Testing? then Test else if pc.Woken? then Recheck else Admit
  }

  /** The holder goes on, alone, and comes closer to giving the mutex back. */
  ghost predicate Advances(s: Manager, t: Tid, n: Manager, limits: Limits) {
    && t < |s.threads| == |n.threads| && Step(s, t, NextAction(s.threads[t]), limits) == Some(n)
    && n.threads == s.threads[t := n.threads[t]] && SameClosing(s, n)
    && (n.predictionMutex.None? || (n.predictionMutex == Some(t) && Rank(n.threads[t]) < Rank(s.threads[t])))
  }

  lemma HolderMoves(s: Manager, t: Tid, limits: Limits) returns (n: Manager)
    requires Inv(s, limits) && s.predictionMutex == Some(t)
    ensures Advances(s, t, n, limits) && Inv(n, limits)
  {
    HolderIs(s, limits);
    hide Inv, Step;
    RoleExists(s, t, limits);
    OwnLockFree(s, t, RoleRef(s.threads[t]).value, limits);
    n := HolderSteps(s, t, limits);
    Keeping(s, t, NextAction(s.threads[t]), limits, n);
  }

  lemma HolderSteps(s: Manager, t: Tid, limits: Limits) returns (n: Manager)
    requires s.predictionMutex == Some(t) && t < |s.threads| && HoldsPrediction(s.threads[t]) && Free(s, s.threads[t].ref)
    ensures Advances(s, t, n, limits)
  {
    match s.threads[t]
    case Testing(_) => n := TestStep(s, t, limits).value;
    case Woken(_) => n := RecheckStep(s, t).value;
    case Checked(_) => n := AdmitStep(s, t).value;
  }

  predicate SameClosing(s: Manager, n: Manager) {
    |n.heap| == |s.heap| && forall r :: 0 <= r < |s.heap| ==> n.heap[r].closing == s.heap[r].closing
  }

  /** Whoever holds the prediction mutex can be run until it is free; nobody else moves. */
  lemma {:induction false} MutexFreed(s: Manager, u: Tid, limits: Limits) returns (moves: seq<Move>, n: Manager)
    requires Inv(s, limits) && u < |s.threads| && s.predictionMutex != Some(u)
    ensures Play(s, moves, limits) == Some(n) && Inv(n, limits) && n.predictionMutex.None?
    ensures |n.threads| == |s.threads| && n.threads[u] == s.threads[u] && SameClosing(s, n)
    decreases if s.predictionMutex.Some? && s.predictionMutex.value < |s.threads| then Rank(s.threads[s.predictionMutex.value]) else 0
  {
    hide Inv, Step;
    if s.predictionMutex.None? {
      moves, n := [], s;
    } else {
      var t := s.predictionMutex.value;
      var next := HolderMoves(s, t, limits);
      if next.predictionMutex.None? {
        n := next;
        moves := [Move(t, NextAction(s.threads[t]))];
        assert Play(next, moves[1..], limits) == Some(next);
      } else {
        var rest;
        rest, n := MutexFreed(next, u, limits);
        moves := [Move(t, NextAction(s.threads[t]))] + rest;
        assert moves[1..] == rest;
      }
    }
  }

  lemma FlagCleared(s: Manager, u: Tid, ref: Ref, limits: Limits)
    requires Inv(s, limits) && u < |s.threads| && (s.threads[u] == Finished(ref) || s.threads[u] == Cancelled(ref))
    ensures CanRelease(s, ref, limits)
  {
    hide Inv, CanRelease;
    RoleExists(s, u, limits);
    OwnLockFree(s, u, ref, limits);
    var a := if s.threads[u].Finished? then ClearFlag else Release;
    var n := Step(s, u, a, limits).value;
    AlreadyReleased(n, ref, limits);
    StepThen(s, u, a, limits, n, ref);
  }

  /** The running thread ends its prediction. */
  lemma Decremented(s: Manager, u: Tid, limits: Limits) returns (n: Manager)
    requires Inv(s, limits) && u < |s.threads| && s.threads[u].Finishing? && s.predictionMutex.None?
    ensures Step(s, u, Decrement, limits) == Some(n) && Inv(n, limits) && n.running < s.running
    ensures n.threads == s.threads[u := Finished(s.threads[u].ref)] && n.predictionMutex.None? && n.heap == s.heap
  {
    hide Inv;
    n := Step(s, u, Decrement, limits).value;
    DecrementKeeps(s, u, limits);
    Keeping(s, u, Decrement, limits, n);
  }

  lemma Ran(s: Manager, u: Tid, limits: Limits) returns (n: Manager)
    requires Inv(s, limits) && u < |s.threads| && s.threads[u].Running?
    ensures Step(s, u, RunEngine(true), limits) == Some(n) && Inv(n, limits)
    ensures n.threads == s.threads[u := Finishing(s.threads[u].ref)] && SameClosing(s, n)
    ensures n.predictionMutex == s.predictionMutex && n.running == s.running
  {
    hide Inv;
    RoleExists(s, u, limits);
    OwnLockFree(s, u, s.threads[u].ref, limits);
    n := Step(s, u, RunEngine(true), limits).value;
    Keeping(s, u, RunEngine(true), limits, n);
  }

  lemma FinishingReleases(s: Manager, u: Tid, ref: Ref, limits: Limits)
    requires Inv(s, limits) && u < |s.threads| && s.threads[u] == Finishing(ref)
    ensures CanRelease(s, ref, limits)
  {
    hide Inv, CanRelease, Step, Play;
    HolderIs(s, limits);
    var moves, free := MutexFreed(s, u, limits);
    var n := Decremented(free, u, limits);
    FlagCleared(n, u, ref, limits);
    StepThen(free, u, Decrement, limits, n, ref);
    PlayThen(s, moves, limits, free, ref);
  }

  lemma AdmittedReleases(s: Manager, u: Tid, ref: Ref, limits: Limits)
    requires Inv(s, limits) && u < |s.threads| && s.threads[u] == Running(ref)
    ensures CanRelease(s, ref, limits)
  {
    hide Inv, CanRelease, Step;
    var n := Ran(s, u, limits);
    FinishingReleases(n, u, ref, limits);
    StepThen(s, u, RunEngine(true), limits, n, ref);
  }

  lemma CheckedReleases(s: Manager, u: Tid, ref: Ref, limits: Limits)
    requires Inv(s, limits) && u < |s.threads| && s.threads[u] == Checked(ref)
    ensures CanRelease(s, ref, limits)
  {
    hide Inv, CanRelease;
    var n := Step(s, u, Admit, limits).value;
    Keeping(s, u, Admit, limits, n);
    if n.threads[u] == Running(ref) {
      AdmittedReleases(n, u, ref, limits);
    } else {
      FlagCleared(n, u, ref, limits);
    }
    StepThen(s, u, Admit, limits, n, ref);
  }

  lemma WokenReleases(s: Manager, u: Tid, ref: Ref, limits: Limits)
    requires Inv(s, limits) && u < |s.threads| && s.threads[u] == Woken(ref) && ref < |s.heap| && !s.heap[ref].closing
    ensures CanRelease(s, ref, limits)
  {
    hide Inv, CanRelease;
    OwnLockFree(s, u, ref, limits);
    var n := Step(s, u, Recheck, limits).value;
    Keeping(s, u, Recheck, limits, n);
    CheckedReleases(n, u, ref, limits);
    StepThen(s, u, Recheck, limits, n, ref);
  }

  lemma ReadyReleases(s: Manager, u: Tid, ref: Ref, limits: Limits)
    requires Inv(s, limits) && u < |s.threads| && s.threads[u] == Testing(ref) && ref < |s.heap| && !s.heap[ref].closing
    requires MayWake(s, ref, limits)
    ensures CanRelease(s, ref, limits)
  {
    hide Inv, CanRelease;
    OwnLockFree(s, u, ref, limits);
    var n := Step(s, u, Test, limits).value;
    Keeping(s, u, Test, limits, n);
    WokenReleases(n, u, ref, limits);
    StepThen(s, u, Test, limits, n, ref);
  }

  /** With the prediction mutex and a place free. */
  lemma PlaceReleases(s: Manager, u: Tid, ref: Ref, limits: Limits)
    requires Inv(s, limits) && u < |s.threads| && s.threads[u] == Queued(ref) && ref < |s.heap| && !s.heap[ref].closing
    requires s.predictionMutex.None? && s.running < limits.maxConcurrent
    ensures CanRelease(s, ref, limits)
  {
    hide Inv, CanRelease;
    var n := Step(s, u, Wake, limits).value;
    Keeping(s, u, Wake, limits, n);
    ReadyReleases(n, u, ref, limits);
    StepThen(s, u, Wake, limits, n, ref);
  }

  lemma {:induction false} SomeCounted(threads: seq<Pc>) returns (v: Tid)
    requires CountedThreads(threads) > 0
    ensures v < |threads| && Counted(threads[v])
  {
    if Counted(threads[0]) {
      v := 0;
    } else {
      v := SomeCounted(threads[1..]);
      v := v + 1;
    }
  }

  lemma CountsHold(s: Manager, limits: Limits)
    requires Inv(s, limits)
    ensures s.running == CountedThreads(s.threads) && s.running <= limits.maxConcurrent
  {
  }

  /** A prediction that has run makes a place. */
  lemma FinishingMakesPlace(s: Manager, v: Tid, u: Tid, ref: Ref, limits: Limits)
    requires Inv(s, limits) && u < |s.threads| && s.threads[u] == Queued(ref) && ref < |s.heap| && !s.heap[ref].closing
    requires v < |s.threads| && s.threads[v].Finishing? && s.predictionMutex.None?
    ensures CanRelease(s, ref, limits)
  {
    CountsHold(s, limits);
    hide Inv, CanRelease, Step;
    var n := Decremented(s, v, limits);
    PlaceReleases(n, u, ref, limits);
    StepThen(s, v, Decrement, limits, n, ref);
  }

  lemma CountedMakesPlace(s: Manager, v: Tid, u: Tid, ref: Ref, limits: Limits)
    requires Inv(s, limits) && u < |s.threads| && s.threads[u] == Queued(ref) && ref < |s.heap| && !s.heap[ref].closing
    requires v < |s.threads| && Counted(s.threads[v]) && s.predictionMutex.None?
    ensures CanRelease(s, ref, limits)
  {
    hide Inv, CanRelease, Step;
    if s.threads[v].Finishing? {
      FinishingMakesPlace(s, v, u, ref, limits);
    } else {
      var n := Ran(s, v, limits);
      FinishingMakesPlace(n, v, u, ref, limits);
      StepThen(s, v, RunEngine(true), limits, n, ref);
    }
  }

  lemma QueuedReleases(s: Manager, u: Tid, ref: Ref, limits: Limits)
    requires Inv(s, limits) && limits.maxConcurrent > 0
    requires u < |s.threads| && s.threads[u] == Queued(ref) && ref < |s.heap| && !s.heap[ref].closing
    ensures CanRelease(s, ref, limits)
  {
    HolderIs(s, limits);
    hide Inv, CanRelease, Step, Play;
    var moves, free := MutexFreed(s, u, limits);
    CountsHold(free, limits);
    if free.running < limits.maxConcurrent {
      PlaceReleases(free, u, ref, limits);
    } else {
      var v := SomeCounted(free.threads);
      CountedMakesPlace(free, v, u, ref, limits);
    }
    PlayThen(s, moves, limits, free, ref);
  }

  lemma TestingReleases(s: Manager, u: Tid, ref: Ref, limits: Limits)
    requires Inv(s, limits) && limits.maxConcurrent > 0
    requires u < |s.threads| && s.threads[u] == Testing(ref) && ref < |s.heap| && !s.heap[ref].closing
    ensures CanRelease(s, ref, limits)
  {
    hide Inv, CanRelease;
    if MayWake(s, ref, limits) {
      ReadyReleases(s, u, ref, limits);
    } else {
      OwnLockFree(s, u, ref, limits);
      var n := Step(s, u, Test, limits).value;
      Keeping(s, u, Test, limits, n);
      QueuedReleases(n, u, ref, limits);
      StepThen(s, u, Test, limits, n, ref);
    }
  }

  lemma StuckIsClosing(s: Manager, u: Tid, ref: Ref, limits: Limits)
    requires Inv(s, limits) && u < |s.threads| && Stuck(s.threads[u], ref)
    ensures Doomed(s, u, ref)
  {
    hide Owners, CountedThreads, Tables, Locks, Heaps, Flags, Counts, SessionLocks;
    assert PcOk(s, s.threads[u], limits);
  }

  /** In every reachable state, a prediction that holds its session can still release it exactly when it has passed
      the closing check or its session is not closing. The constructor refuses limits of zero. */
  lemma ReleasedExactlyUnlessClosing(states: seq<Manager>, moves: seq<Move>, limits: Limits, i: nat, u: Tid, ref: Ref)
    requires IsRun(states, moves, limits) && limits.maxConcurrent > 0 && i < |states|
    requires u < |states[i].threads| && Owns(states[i].threads[u], ref)
    ensures CanRelease(states[i], ref, limits) <==> !Doomed(states[i], u, ref)
  {
    hide Inv, CanRelease, IsRun, Step, Releases;
    var s := states[i];
    EveryRunIsSafe(states, moves, limits, i);
    RoleExists(s, u, limits);
    if Doomed(s, u, ref) {
      CannotRelease(s, limits, u, ref);
    } else {
      match s.threads[u]
      case Queued(_) => QueuedReleases(s, u, ref, limits);
      case Testing(_) => TestingReleases(s, u, ref, limits);
      case Woken(_) => WokenReleases(s, u, ref, limits);
      case Checked(_) => CheckedReleases(s, u, ref, limits);
      case Cancelling(_) => StuckIsClosing(s, u, ref, limits);
      case Abandoned(_) => StuckIsClosing(s, u, ref, limits);
      case Cancelled(_) => FlagCleared(s, u, ref, limits);
      case Running(_) => AdmittedReleases(s, u, ref, limits);
      case Finishing(_) => FinishingReleases(s, u, ref, limits);
      case Finished(_) => FlagCleared(s, u, ref, limits);
    }
  }

  lemma CannotRelease(s: Manager, limits: Limits, u: Tid, ref: Ref)
    requires Inv(s, limits) && Doomed(s, u, ref)
    ensures !CanRelease(s, ref, limits)
  {
    hide Inv, Doomed, Releases;
    forall moves ensures !Releases(s, moves, ref, limits) {
      DoomedPlays(s, moves, limits, u, ref);
    }
  }

  /** Past the closing check and still holding the session. */
  predicate Passed(pc: Pc, ref: Ref) {
    Owns(pc, ref) && !Waiting(pc, ref) && !Stuck(pc, ref)
  }

  lemma PassedStep(s: Manager, t: Tid, a: Action, limits: Limits, n: Manager, u: Tid, ref: Ref)
    requires t < |s.threads| && u < |s.threads| && Step(s, t, a, limits) == Some(n) && Passed(s.threads[u], ref)
    ensures u < |n.threads| && (Owns(n.threads[u], ref) ==> Passed(n.threads[u], ref))
  {
    if t != u {
      OtherMove(s, t, a, limits, n, u);
    } else {
      PassedMove(s, t, a, limits, n, ref);
    }
  }

  lemma PassedMove(s: Manager, t: Tid, a: Action, limits: Limits, n: Manager, ref: Ref)
    requires t < |s.threads| && Step(s, t, a, limits) == Some(n) && Passed(s.threads[t], ref)
    ensures t < |n.threads| && (Owns(n.threads[t], ref) ==> Passed(n.threads[t], ref))
  {
  }

  lemma RecheckOutcome(s: Manager, t: Tid, limits: Limits, n: Manager, ref: Ref)
    requires t < |s.threads| && s.threads[t] == Woken(ref) && Step(s, t, Recheck, limits) == Some(n)
    ensures if s.heap[ref].closing then Doomed(n, t, ref) else t < |n.threads| && Passed(n.threads[t], ref)
  {
  }

  lemma {:induction false} StaysPassed(states: seq<Manager>, moves: seq<Move>, limits: Limits, i: nat, j: nat, t: Tid, ref: Ref)
    requires IsRun(states, moves, limits) && i <= j < |states| && t < |states[i].threads| && Passed(states[i].threads[t], ref)
    requires forall k :: i <= k <= j ==> t < |states[k].threads| && Owns(states[k].threads[t], ref)
    ensures Passed(states[j].threads[t], ref)
    decreases j
  {
    hide Step, Passed, Owns;
    if i < j {
      StaysPassed(states, moves, limits, i, j - 1, t, ref);
      PassedStep(states[j - 1], moves[j - 1].thread, moves[j - 1].action, limits, states[j], t, ref);
    }
  }

  /** The closing check decides: as long as the call still holds the session, it can go on to release it exactly when
      the session was not closing at the check, whatever has happened since. */
  lemma CheckDecides(states: seq<Manager>, moves: seq<Move>, limits: Limits, i: nat, j: nat, t: Tid, ref: Ref)
    requires IsRun(states, moves, limits) && limits.maxConcurrent > 0 && i < |moves| && i < j < |states|
    requires moves[i] == Move(t, Recheck) && t < |states[i].threads| && states[i].threads[t] == Woken(ref)
    requires forall k :: i < k <= j ==> t < |states[k].threads| && Owns(states[k].threads[t], ref)
    ensures ref < |states[i].heap| && (CanRelease(states[j], ref, limits) <==> !states[i].heap[ref].closing)
  {
    hide Step, CanRelease, Inv, Passed, Doomed, Owns;
    EveryRunIsSafe(states, moves, limits, i);
    RoleExists(states[i], t, limits);
    RecheckOutcome(states[i], t, limits, states[i + 1], ref);
    ReleasedExactlyUnlessClosing(states, moves, limits, j, t, ref);
    if states[i].heap[ref].closing {
      WaitingIsNeverReleased(states, moves, limits, i + 1, j, t, ref);
    } else {
      StaysPassed(states, moves, limits, i + 1, j, t, ref);
      PassedIsNotDoomed(states[j], t, ref);
    }
  }

  lemma PassedIsNotDoomed(s: Manager, t: Tid, ref: Ref)
    requires t < |s.threads| && Passed(s.threads[t], ref)
    ensures !Doomed(s, t, ref)
  {
  }
}
