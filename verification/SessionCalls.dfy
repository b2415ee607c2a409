/** Who may call the session manager for what, and what each call comes to
    (ime-unix-service/src/session/session_manager.cpp). The statements are about the states before and after. */
module SessionCalls {
  import opened Wrappers
  import opened SessionManager
  import opened SessionSafety
  import opened SessionRelease

  /** A step of thread `t` at place `i` of a run. */
  ghost predicate Does(states: seq<Manager>, moves: seq<Move>, limits: Limits, i: nat, t: Tid, a: Action) {
    IsRun(states, moves, limits) && i < |moves| && moves[i] == Move(t, a)
  }

  lemma Before(states: seq<Manager>, moves: seq<Move>, limits: Limits, i: nat, t: Tid, a: Action)
    requires Does(states, moves, limits, i, t, a)
    ensures i + 1 < |states| && Inv(states[i], limits) && t < |states[i].threads|
    ensures Step(states[i], t, a, limits) == Some(states[i + 1])
  {
    hide Inv, Step;
    EveryRunIsSafe(states, moves, limits, i);
    assert moves[i].thread == t && moves[i].action == a;
  }

  lemma TableRefs(s: Manager, limits: Limits, id: Id)
    requires Inv(s, limits) && id in s.table
    ensures s.table[id] < |s.heap| && s.heap[s.table[id]].id == id
  {
  }

  // ----- owners -----

  /** Looking a session up succeeds exactly for its owner, while the service is not shutting down; otherwise nothing
      changes. */
  lemma LookupIsForTheOwner(states: seq<Manager>, moves: seq<Move>, limits: Limits, i: nat, t: Tid, uid: nat, id: Id, request: nat)
    requires Does(states, moves, limits, i, t, Lookup(uid, id, request))
    ensures var s, n := states[i], states[i + 1];
      if !s.shuttingDown && id in s.table && s.table[id] < |s.heap| && s.heap[s.table[id]].owner == uid
      then t < |s.threads| && n == s.(threads := s.threads[t := Found(s.table[id], request)])
      else n == s
  {
    hide Inv;
    Before(states, moves, limits, i, t, Lookup(uid, id, request));
    if id in states[i].table {
      TableRefs(states[i], limits, id);
    }
  }

  /** So does closing it, which is possible during a shutdown too. */
  lemma CloseIsForTheOwner(states: seq<Manager>, moves: seq<Move>, limits: Limits, i: nat, t: Tid, uid: nat, id: Id)
    requires Does(states, moves, limits, i, t, CloseBegin(uid, id))
    ensures var s, n := states[i], states[i + 1];
      if id in s.table && s.table[id] < |s.heap| && s.heap[s.table[id]].owner == uid
      then t < |s.threads| && n == s.(threads := s.threads[t := Closing(s.table[id], id)], mutex := Some(t))
      else n == s
  {
    hide Inv;
    Before(states, moves, limits, i, t, CloseBegin(uid, id));
    if id in states[i].table {
      TableRefs(states[i], limits, id);
    }
  }

  lemma StepOwners(s: Manager, t: Tid, a: Action, limits: Limits, n: Manager)
    requires t < |s.threads| && Step(s, t, a, limits) == Some(n)
    ensures |s.heap| <= |n.heap| && forall r :: 0 <= r < |s.heap| ==> n.heap[r].owner == s.heap[r].owner
  {
  }

  /** A session's owner never changes. */
  lemma {:induction false} OwnersStay(states: seq<Manager>, moves: seq<Move>, limits: Limits, i: nat, j: nat, ref: Ref)
    requires IsRun(states, moves, limits) && i <= j < |states| && ref < |states[i].heap|
    ensures ref < |states[j].heap| && states[j].heap[ref].owner == states[i].heap[ref].owner
    decreases j
  {
    hide Step;
    if i < j {
      OwnersStay(states, moves, limits, i, j - 1, ref);
      StepOwners(states[j - 1], moves[j - 1].thread, moves[j - 1].action, limits, states[j]);
    }
  }

  /** Opening adds a session of the caller, unused and open, when the table has room and nothing else; otherwise it adds
      none. */
  lemma OpenAddsOne(states: seq<Manager>, moves: seq<Move>, limits: Limits, i: nat, t: Tid, id: Id)
    requires Does(states, moves, limits, i, t, OpenFinish(id))
    ensures var s, n := states[i], states[i + 1];
      && t < |s.threads| && s.threads[t].Evicting? && s.threads[t].opening && n.threads == s.threads[t := Idle] && n.mutex.None?
      && if |s.table| < limits.maxSessions then
           && id !in s.table && n.table == s.table[id := |s.heap|]
           && |n.heap| == |s.heap| + 1 && n.heap[..|s.heap|] == s.heap
           && var x := n.heap[|s.heap|];
              x.id == id && x.owner == s.threads[t].uid && !x.closing && !x.inFlight && !x.engine && x.accepted == [] && !x.destroyed
         else n.table == s.table && n.heap == s.heap
  {
    Before(states, moves, limits, i, t, OpenFinish(id));
  }

  /** A shutdown refuses to open. */
  lemma OpenBegins(states: seq<Manager>, moves: seq<Move>, limits: Limits, i: nat, t: Tid, uid: nat)
    requires Does(states, moves, limits, i, t, OpenBegin(uid))
    ensures var s, n := states[i], states[i + 1];
      if s.shuttingDown then n == s
      else t < |s.threads| && n.threads == s.threads[t := Evicting(true, uid, s.table.Keys)] && n.heap == s.heap && n.table == s.table
  {
    hide Inv;
    Before(states, moves, limits, i, t, OpenBegin(uid));
  }

  // ----- which call a thread is in -----

  /** Thread `t` has been in one call since place `b`. */
  ghost predicate Since(states: seq<Manager>, moves: seq<Move>, b: nat, j: nat, t: Tid) {
    && b < j < |states| && b < |moves| && moves[b].thread == t
    && forall k :: b < k <= j ==> t < |states[k].threads| && states[k].threads[t] != Idle
  }

  /** What call a thread that is there must be in. */
  ghost predicate CallOf(s: Manager, pc: Pc, a: Action) {
    match pc
    case Evicting(true, uid, _) => a == OpenBegin(uid)
    case Chosen(true, uid, _, _) => a == OpenBegin(uid)
    case Found(ref, request) => ref < |s.heap| && a.Lookup? && a.uid == s.heap[ref].owner && a.request == request
    case Closing(ref, id) => ref < |s.heap| && a == CloseBegin(s.heap[ref].owner, id)
    case Draining(ref, id) => ref < |s.heap| && a == CloseBegin(s.heap[ref].owner, id)
    case Erasing(ref, id) => ref < |s.heap| && a == CloseBegin(s.heap[ref].owner, id)
    case _ => RoleRef(pc).Some? ==> RoleRef(pc).value < |s.heap| && a.Lookup? && a.uid == s.heap[RoleRef(pc).value].owner
  }

  /** Which steps a thread can take where it is. */
  predicate CanTake(pc: Pc, a: Action) {
    match pc
    case Idle => a.OpenBegin? || a.ReapBegin? || a.Lookup? || a.CloseBegin? || a.ShutdownBegin?
    case Evicting(_, _, _) => a.EvictProbe? || a.OpenFinish? || a.ReapFinish?
    case Chosen(_, _, _, _) => a.EvictErase?
    case Found(_, _) => a.Claim?
    case Queued(_) => a.Wake?
    case Testing(_) => a.Test?
    case Woken(_) => a.Recheck?
    case Checked(_) => a.Admit?
    case Cancelling(_) => a.CancelRelease? || a.CancelThrow?
    case Abandoned(_) => false
    case Cancelled(_) => a.Release?
    case Running(_) => a.RunEngine?
    case Finishing(_) => a.Decrement?
    case Finished(_) => a.ClearFlag?
    case Leaving => a.Leave?
    case Closing(_, _) => a.CloseMark?
    case Draining(_, _) => a.Drain?
    case Erasing(_, _) => a.EraseId?
    case Marking(_, _) => a.Mark? || a.MarkEnd?
    case Notifying(_) => a.Notify?
    case DrainingAll(_, _) => a.DrainNext? || a.DrainEnd?
    case ClearingAll(_) => a.ClearAll?
  }

  lemma StepIsPossible(s: Manager, t: Tid, a: Action, limits: Limits)
    requires t < |s.threads| && Step(s, t, a, limits).Some?
    ensures CanTake(s.threads[t], a)
  {
  }

  /** A step of another thread leaves the call as it is. */
  lemma OthersCall(s: Manager, t: Tid, a: Action, limits: Limits, n: Manager, u: Tid, call: Action)
    requires t < |s.threads| && u < |s.threads| && u != t && Step(s, t, a, limits) == Some(n) && CallOf(s, s.threads[u], call)
    ensures u < |n.threads| && n.threads[u] == s.threads[u] && CallOf(n, n.threads[u], call)
  {
    hide Step, CallOf;
    StepOwners(s, t, a, limits, n);
    OtherMove(s, t, a, limits, n, u);
    SameCall(s, n, s.threads[u], call);
  }

  lemma SameCall(s: Manager, n: Manager, pc: Pc, call: Action)
    requires CallOf(s, pc, call) && |s.heap| <= |n.heap| && forall r :: 0 <= r < |s.heap| ==> n.heap[r].owner == s.heap[r].owner
    ensures CallOf(n, pc, call)
  {
  }

  /** A step of the thread itself stays in the call, ends it or begins one. */
  lemma OwnCall(s: Manager, t: Tid, a: Action, limits: Limits, n: Manager, call: Action)
    requires Inv(s, limits) && t < |s.threads| && Step(s, t, a, limits) == Some(n)
    requires s.threads[t].Idle? || CallOf(s, s.threads[t], call)
    ensures t < |n.threads|
    ensures n.threads[t].Idle? || CallOf(n, n.threads[t], if s.threads[t].Idle? then a else call)
  {
    hide Inv, Counts, Flags, Locks, SessionLocks, Tables, Heaps, Pcs;
    match s.threads[t]
    case Idle => BeginsCall(s, t, a, limits, n);
    case Found(_, _) => ClaimsCall(s, t, a, limits, n, call);
    case Evicting(_, _, _) => EvictsCall(s, t, a, limits, n, call);
    case Chosen(_, _, _, _) => EvictsCall(s, t, a, limits, n, call);
    case Closing(_, _) => ClosesCall(s, t, a, limits, n, call);
    case Draining(_, _) => ClosesCall(s, t, a, limits, n, call);
    case Erasing(_, _) => ClosesCall(s, t, a, limits, n, call);
    case Leaving => LeavesCall(s, t, a, limits, n, call);
    case Marking(_, _) => LeavesCall(s, t, a, limits, n, call);
    case Notifying(_) => OtherCalls(s, t, a, limits, n, call);
    case DrainingAll(_, _) => OtherCalls(s, t, a, limits, n, call);
    case ClearingAll(_) => OtherCalls(s, t, a, limits, n, call);
    case _ => PredictsCall(s, t, a, limits, n, call);
  }

  lemma BeginsCall(s: Manager, t: Tid, a: Action, limits: Limits, n: Manager)
    requires t < |s.threads| && Step(s, t, a, limits) == Some(n) && s.threads[t].Idle?
    ensures t < |n.threads| && (n.threads[t].Idle? || CallOf(n, n.threads[t], a))
  {
    StepIsPossible(s, t, a, limits);
  }

  lemma ClaimsCall(s: Manager, t: Tid, a: Action, limits: Limits, n: Manager, call: Action)
    requires t < |s.threads| && Step(s, t, a, limits) == Some(n) && CallOf(s, s.threads[t], call) && s.threads[t].Found?
    ensures t < |n.threads| && (n.threads[t].Idle? || CallOf(n, n.threads[t], call))
  {
    StepIsPossible(s, t, a, limits);
  }

  lemma EvictsCall(s: Manager, t: Tid, a: Action, limits: Limits, n: Manager, call: Action)
    requires t < |s.threads| && Step(s, t, a, limits) == Some(n) && CallOf(s, s.threads[t], call)
    requires s.threads[t].Evicting? || s.threads[t].Chosen?
    ensures t < |n.threads| && (n.threads[t].Idle? || CallOf(n, n.threads[t], call))
  {
    StepIsPossible(s, t, a, limits);
  }

  lemma ClosesCall(s: Manager, t: Tid, a: Action, limits: Limits, n: Manager, call: Action)
    requires t < |s.threads| && Step(s, t, a, limits) == Some(n) && CallOf(s, s.threads[t], call)
    requires s.threads[t].Closing? || s.threads[t].Draining? || s.threads[t].Erasing?
    ensures t < |n.threads| && (n.threads[t].Idle? || CallOf(n, n.threads[t], call))
  {
    StepIsPossible(s, t, a, limits);
  }

  lemma LeavesCall(s: Manager, t: Tid, a: Action, limits: Limits, n: Manager, call: Action)
    requires t < |s.threads| && Step(s, t, a, limits) == Some(n) && (s.threads[t].Leaving? || s.threads[t].Marking?)
    ensures t < |n.threads| && (n.threads[t].Idle? || CallOf(n, n.threads[t], call))
  {
    StepIsPossible(s, t, a, limits);
  }

  lemma OtherCalls(s: Manager, t: Tid, a: Action, limits: Limits, n: Manager, call: Action)
    requires t < |s.threads| && Step(s, t, a, limits) == Some(n)
    requires s.threads[t].Notifying? || s.threads[t].DrainingAll? || s.threads[t].ClearingAll?
    ensures t < |n.threads| && (n.threads[t].Idle? || CallOf(n, n.threads[t], call))
  {
    StepIsPossible(s, t, a, limits);
  }

  lemma PredictsCall(s: Manager, t: Tid, a: Action, limits: Limits, n: Manager, call: Action)
    requires t < |s.threads| && Step(s, t, a, limits) == Some(n) && CallOf(s, s.threads[t], call) && RoleRef(s.threads[t]).Some?
    ensures t < |n.threads| && (n.threads[t].Idle? || CallOf(n, n.threads[t], call))
  {
    hide Step, CallOf;
    if Waits(s.threads[t]) {
      WaitsCall(s, t, a, limits, n, call);
    } else {
      RunsCall(s, t, a, limits, n, call);
    }
  }

  predicate Waits(pc: Pc) {
    pc.Queued? || pc.Testing? || pc.Woken? || pc.Checked?
  }

  lemma WaitsCall(s: Manager, t: Tid, a: Action, limits: Limits, n: Manager, call: Action)
    requires t < |s.threads| && Step(s, t, a, limits) == Some(n) && CallOf(s, s.threads[t], call) && Waits(s.threads[t])
    ensures t < |n.threads| && (n.threads[t].Idle? || CallOf(n, n.threads[t], call))
  {
    StepIsPossible(s, t, a, limits);
  }

  lemma RunsCall(s: Manager, t: Tid, a: Action, limits: Limits, n: Manager, call: Action)
    requires t < |s.threads| && Step(s, t, a, limits) == Some(n) && CallOf(s, s.threads[t], call)
    requires RoleRef(s.threads[t]).Some? && !Waits(s.threads[t])
    ensures t < |n.threads| && (n.threads[t].Idle? || CallOf(n, n.threads[t], call))
  {
    StepIsPossible(s, t, a, limits);
  }

  /** Over every run: a thread that works on a session came there by a call of the session's owner, and one that opens
      a session opens it for its caller. */
  lemma {:induction false} CallsAreOwners(states: seq<Manager>, moves: seq<Move>, limits: Limits, j: nat, t: Tid) returns (b: nat)
    requires IsRun(states, moves, limits) && j < |states| && t < |states[j].threads| && states[j].threads[t] != Idle
    ensures Since(states, moves, b, j, t) && CallOf(states[j], states[j].threads[t], moves[b].action)
    decreases j
  {
    hide Step, Inv, CallOf;
    if j == 0 {
      assert false;
    } else {
      EveryRunIsSafe(states, moves, limits, j - 1);
      RunEvolves(states, moves, limits, j - 1, j);
      var s, m := states[j - 1], moves[j - 1];
      if m.thread == t {
        if s.threads[t].Idle? {
          b := j - 1;
          OwnCall(s, t, m.action, limits, states[j], m.action);
        } else {
          b := CallsAreOwners(states, moves, limits, j - 1, t);
          OwnCall(s, t, m.action, limits, states[j], moves[b].action);
        }
      } else {
        OtherMove(s, m.thread, m.action, limits, states[j], t);
        b := CallsAreOwners(states, moves, limits, j - 1, t);
        OthersCall(s, m.thread, m.action, limits, states[j], t, moves[b].action);
      }
    }
  }

  /** Over every run: whoever claims, holds or closes a session called for it with the owner's user id. */
  lemma OnlyTheOwner(states: seq<Manager>, moves: seq<Move>, limits: Limits, j: nat, t: Tid, ref: Ref) returns (b: nat)
    requires IsRun(states, moves, limits) && j < |states| && t < |states[j].threads|
    requires Owns(states[j].threads[t], ref) || (states[j].threads[t].Found? && states[j].threads[t].ref == ref) ||
             (states[j].threads[t].Draining? && states[j].threads[t].ref == ref)
    ensures Since(states, moves, b, j, t) && ref < |states[j].heap|
    ensures moves[b].action.Lookup? || moves[b].action.CloseBegin?
    ensures moves[b].action.uid == states[j].heap[ref].owner
  {
    b := CallsAreOwners(states, moves, limits, j, t);
  }

  // ----- predictions -----

  /** A request is accepted exactly when the session is open and idle and its id is greater than every one accepted
      before; a refused one changes nothing. */
  lemma ClaimsInOrder(states: seq<Manager>, moves: seq<Move>, limits: Limits, i: nat, t: Tid)
    requires Does(states, moves, limits, i, t, Claim)
    ensures t < |states[i].threads| && states[i].threads[t].Found? && states[i].threads[t].ref < |states[i].heap|
    ensures var s, n := states[i], states[i + 1];
      var ref, request := s.threads[t].ref, s.threads[t].request;
      var x := s.heap[ref];
      if !x.closing && !x.inFlight && request > 0 && (forall k :: 0 <= k < |x.accepted| ==> x.accepted[k] < request) then
        && n.threads == s.threads[t := Queued(ref)] && |n.heap| == |s.heap|
        && n.heap[ref].inFlight && n.heap[ref].accepted == x.accepted + [request] && n.heap[ref].owner == x.owner
        && forall r :: 0 <= r < |s.heap| && r != ref ==> n.heap[r] == s.heap[r]
      else n == s.(threads := s.threads[t := Idle])
  {
    hide Inv, Step;
    Before(states, moves, limits, i, t, Claim);
    ClaimStepInOrder(states[i], t, limits, states[i + 1]);
  }

  lemma ClaimStepInOrder(s: Manager, t: Tid, limits: Limits, n: Manager)
    requires Inv(s, limits) && t < |s.threads| && Step(s, t, Claim, limits) == Some(n)
    ensures s.threads[t].Found? && s.threads[t].ref < |s.heap|
    ensures var ref, request := s.threads[t].ref, s.threads[t].request;
      var x := s.heap[ref];
      if !x.closing && !x.inFlight && request > 0 && (forall k :: 0 <= k < |x.accepted| ==> x.accepted[k] < request) then
        && n.threads == s.threads[t := Queued(ref)] && |n.heap| == |s.heap|
        && n.heap[ref].inFlight && n.heap[ref].accepted == x.accepted + [request] && n.heap[ref].owner == x.owner
        && forall r :: 0 <= r < |s.heap| && r != ref ==> n.heap[r] == s.heap[r]
      else n == s.(threads := s.threads[t := Idle])
  {
    hide CountedThreads, Owners, Counts, Flags, Tables, Pcs, Locks, SessionLocks;
    assert SessionOk(s.heap[s.threads[t].ref]);
  }

  /** A waiting prediction goes on when a place is free, its session is closing or the service shuts down; past the
      closing check it runs unless the service shuts down; ending it frees its place and then its session. */
  lemma PredictionsGoOn(s: Manager, t: Tid, limits: Limits)
    requires t < |s.threads| && RoleRef(s.threads[t]).Some? && RoleRef(s.threads[t]).value < |s.heap|
    requires s.heap[RoleRef(s.threads[t]).value].lock.None?
    ensures var ref := RoleRef(s.threads[t]).value;
      && (s.threads[t].Testing? ==>
            var n := Step(s, t, Test, limits);
            n.Some? && n.value.heap == s.heap && n.value.running == s.running &&
            n.value.threads[t] == if s.shuttingDown || s.heap[ref].closing || s.running < limits.maxConcurrent then Woken(ref) else Queued(ref))
      && (s.threads[t].Checked? ==>
            var n := Step(s, t, Admit, limits);
            n.Some? && n.value.heap == s.heap &&
            if s.shuttingDown then n.value.threads[t] == Cancelled(ref) && n.value.running == s.running
            else n.value.threads[t] == Running(ref) && n.value.running == s.running + 1)
      && (s.threads[t].Running? ==> forall made ::
            var n := Step(s, t, RunEngine(made), limits);
            n.Some? && n.value.threads[t] == Finishing(ref) && n.value.heap[ref] == s.heap[ref].(engine := s.heap[ref].engine || made))
      && (s.threads[t].Finishing? && s.predictionMutex.None? && s.running > 0 ==>
            var n := Step(s, t, Decrement, limits);
            n.Some? && n.value.threads[t] == Finished(ref) && n.value.running == s.running - 1 && n.value.heap == s.heap)
      && (s.threads[t].Finished? ==>
            var n := Step(s, t, ClearFlag, limits);
            n.Some? && n.value.threads[t] == Leaving && n.value.heap[ref] == s.heap[ref].(inFlight := false))
      && (s.threads[t].Cancelled? ==>
            var n := Step(s, t, Release, limits);
            n.Some? && n.value.threads[t] == Idle && n.value.heap[ref] == s.heap[ref].(inFlight := false))
  {
  }

  // ----- the table -----

  /** A session leaves the table by an eviction, by the end of its close, or by a shutdown's end. */
  lemma LeavesTheTable(states: seq<Manager>, moves: seq<Move>, limits: Limits, i: nat, t: Tid, a: Action, id: Id)
    requires Does(states, moves, limits, i, t, a) && id in states[i].table
    ensures var s, n := states[i], states[i + 1];
      if id in n.table then n.table[id] == s.table[id]
      else
        || (a.EvictErase? && s.threads[t].Chosen? && s.threads[t].ref == s.table[id])
        || (a.EraseId? && s.threads[t].Erasing? && s.threads[t].id == id && DestroyedAt(s, s.threads[t].ref))
        || (a.ClearAll? && DestroyedAt(s, s.table[id]))
  {
    Before(states, moves, limits, i, t, a);
    LeavesStep(states[i], t, a, limits, states[i + 1], id);
    if a.ClearAll? {
      ShutdownDrainsTheTable(states, moves, limits, i, id);
    }
  }

  lemma LeavesStep(s: Manager, t: Tid, a: Action, limits: Limits, n: Manager, id: Id)
    requires Pcs(s, limits) && Tables(s, limits) && t < |s.threads| && Step(s, t, a, limits) == Some(n) && id in s.table
    ensures if id in n.table then n.table[id] == s.table[id]
      else
        || (a.EvictErase? && s.threads[t].Chosen? && s.threads[t].ref == s.table[id])
        || (a.EraseId? && s.threads[t].Erasing? && s.threads[t].id == id && DestroyedAt(s, s.threads[t].ref))
        || a.ClearAll?
  {
    hide Step;
    if a.EvictErase? || a.OpenFinish? || a.EraseId? || a.ClearAll? {
      assert PcOk(s, s.threads[t], limits);
      LeavesBy(s, t, a, limits, n, id);
    } else {
      SameTable(s, t, a, limits, n);
    }
  }

  lemma SameTable(s: Manager, t: Tid, a: Action, limits: Limits, n: Manager)
    requires t < |s.threads| && Step(s, t, a, limits) == Some(n) && !a.EvictErase? && !a.OpenFinish? && !a.EraseId? && !a.ClearAll?
    ensures n.table == s.table
  {
    hide Step;
    StepIsPossible(s, t, a, limits);
    if RoleRef(s.threads[t]).Some? {
      PredictingSameTable(s, t, a, limits, n);
    } else if s.threads[t].Idle? {
      BeginningSameTable(s, t, a, limits, n);
    } else {
      OtherSameTable(s, t, a, limits, n);
    }
  }

  lemma PredictingSameTable(s: Manager, t: Tid, a: Action, limits: Limits, n: Manager)
    requires t < |s.threads| && Step(s, t, a, limits) == Some(n) && CanTake(s.threads[t], a) && RoleRef(s.threads[t]).Some?
    ensures n.table == s.table
  {
  }

  lemma BeginningSameTable(s: Manager, t: Tid, a: Action, limits: Limits, n: Manager)
    requires t < |s.threads| && Step(s, t, a, limits) == Some(n) && CanTake(s.threads[t], a) && s.threads[t].Idle?
    ensures n.table == s.table
  {
  }

  lemma OtherSameTable(s: Manager, t: Tid, a: Action, limits: Limits, n: Manager)
    requires t < |s.threads| && Step(s, t, a, limits) == Some(n) && CanTake(s.threads[t], a)
    requires RoleRef(s.threads[t]).None? && !s.threads[t].Idle? && !a.EvictErase? && !a.OpenFinish? && !a.EraseId? && !a.ClearAll?
    ensures n.table == s.table
  {
  }

  lemma LeavesBy(s: Manager, t: Tid, a: Action, limits: Limits, n: Manager, id: Id)
    requires t < |s.threads| && PcOk(s, s.threads[t], limits) && Tables(s, limits) && Step(s, t, a, limits) == Some(n) && id in s.table
    requires a.EvictErase? || a.OpenFinish? || a.EraseId? || a.ClearAll?
    ensures if id in n.table then n.table[id] == s.table[id]
      else
        || (a.EvictErase? && s.threads[t].Chosen? && s.threads[t].ref == s.table[id])
        || (a.EraseId? && s.threads[t].Erasing? && s.threads[t].id == id && DestroyedAt(s, s.threads[t].ref))
        || a.ClearAll?
  {
    hide ShutdownOk, MarkingOk, MarkingNow;
    StepIsPossible(s, t, a, limits);
  }

  /** Only a session that is open and idle is chosen for eviction, and looking at one changes nothing else. */
  lemma ChosenIsIdle(states: seq<Manager>, moves: seq<Move>, limits: Limits, i: nat, t: Tid, id: Id, take: bool)
    requires Does(states, moves, limits, i, t, EvictProbe(id, take))
    ensures var s, n := states[i], states[i + 1];
      && t < |s.threads| && id in s.table && s.table[id] < |s.heap|
      && n == s.(threads := n.threads) && |n.threads| == |s.threads|
      && (n.threads[t].Chosen? <==> take && !s.heap[s.table[id]].closing && !s.heap[s.table[id]].inFlight)
      && (n.threads[t].Chosen? ==> n.threads[t].ref == s.table[id])
  {
    hide Inv;
    Before(states, moves, limits, i, t, EvictProbe(id, take));
  }

  /** Closing marks the session and nothing else; its engine goes when no prediction is in flight. */
  lemma ClosingMarks(states: seq<Manager>, moves: seq<Move>, limits: Limits, i: nat, t: Tid, a: Action)
    requires Does(states, moves, limits, i, t, a) && (a.CloseMark? || a.Drain?)
    ensures var s, n := states[i], states[i + 1];
      && t < |s.threads| && (if a.CloseMark? then s.threads[t].Closing? else s.threads[t].Draining?)
      && var ref := s.threads[t].ref;
      && ref < |s.heap| && |n.heap| == |s.heap| && (forall r :: 0 <= r < |s.heap| && r != ref ==> n.heap[r] == s.heap[r])
      && (a.CloseMark? ==> n.heap[ref] == s.heap[ref].(closing := true) && n.threads[t] == Draining(ref, s.threads[t].id))
      && (a.Drain? ==> !s.heap[ref].inFlight && !n.heap[ref].engine && n.heap[ref].destroyed && n.threads[t] == Erasing(ref, s.threads[t].id))
  {
    hide Inv;
    Before(states, moves, limits, i, t, a);
  }
}
