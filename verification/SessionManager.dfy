/** The service's session manager under concurrency (ime-unix-service/src/session/session_manager.cpp).

    Every thread has a program counter; one step is one critical section, or the part of one between two
    acquisitions of another lock. `mutex` and `predictionMutex` are held across the steps that hold them in the
    source. A session's own mutex is held within single steps, except by a prediction that finds its session
    closing: it still holds that mutex when it locks it again to release its flag (lines 134 and 138).

    A waiting prediction may wake at any time. The source can make it wait longer: closing notifies without
    holding prediction_mutex_, so a waiter that has just tested its predicate misses that notification. */
module SessionManager {
  import opened Wrappers

  type Tid = nat
  type Ref = nat
  type Id = nat

  datatype Limits = Limits(maxSessions: nat, maxConcurrent: nat)

  /** `lock` is the thread that holds the session's mutex from one step to the next; `accepted` lists the request
      ids the session accepted; `destroyed` marks that a close or a shutdown reset its engine. */
  datatype Session = Session(
    id: Id, owner: nat, closing: bool, engine: bool, lastRequest: nat, inFlight: bool, lock: Option<Tid>,
    accepted: seq<nat>, destroyed: bool)

  datatype Pc =
    | Idle
    // open_session and reap, holding mutex, with the sessions still to be looked at
    | Evicting(opening: bool, uid: nat, unseen: set<Id>)
    | Chosen(opening: bool, uid: nat, unseen: set<Id>, ref: Ref)
    // predict; Testing, Woken and Checked hold predictionMutex
    | Found(ref: Ref, request: nat)
    | Queued(ref: Ref)
    | Testing(ref: Ref)
    | Woken(ref: Ref)
    | Checked(ref: Ref)
    // holding the session's mutex and about to lock it again
    | Cancelling(ref: Ref)
    // left by the exception of that second lock
    | Abandoned(ref: Ref)
    | Cancelled(ref: Ref)
    | Running(ref: Ref)
    | Finishing(ref: Ref)
    | Finished(ref: Ref)
    | Leaving
    // close_session; Closing holds mutex
    | Closing(ref: Ref, id: Id)
    | Draining(ref: Ref, id: Id)
    | Erasing(ref: Ref, id: Id)
    // shutdown; Marking holds mutex
    | Marking(all: seq<Ref>, unmarked: set<Id>)
    | Notifying(all: seq<Ref>)
    | DrainingAll(all: seq<Ref>, done: nat)
    | ClearingAll(all: seq<Ref>)

  datatype Manager = Manager(
    heap: seq<Session>,
    table: map<Id, Ref>,
    shuttingDown: bool,
    running: nat,
    mutex: Option<Tid>,
    predictionMutex: Option<Tid>,
    threads: seq<Pc>)

  // ----- steps -----

  datatype Action =
    | OpenBegin(uid: nat)
    | ReapBegin
    | EvictProbe(id: Id, take: bool)
    | EvictErase
    | OpenFinish(id: Id)
    | ReapFinish
    | Lookup(uid: nat, id: Id, request: nat)
    | Claim
    | Wake
    | Test
    | Recheck
    | CancelRelease
    | CancelThrow
    | Admit
    | Release
    | RunEngine(made: bool)
    | Decrement
    | ClearFlag
    | Leave
    | CloseBegin(uid: nat, id: Id)
    | CloseMark
    | Drain
    | EraseId
    | ShutdownBegin
    | Mark(id: Id)
    | MarkEnd
    | Notify
    | DrainNext
    | DrainEnd
    | ClearAll

  function At(s: Manager, t: Tid, pc: Pc): Manager
    requires t < |s.threads|
  {
    s.(threads := s.threads[t := pc])
  }

  function With(s: Manager, ref: Ref, session: Session): Manager
    requires ref < |s.heap|
  {
    s.(heap := s.heap[ref := session])
  }

  /** Under mutex: opening refuses during a shutdown; otherwise the table may now be evicted from. */
  function BeginEvicting(s: Manager, t: Tid, opening: bool, uid: nat): Option<Manager>
    requires t < |s.threads|
  {
    if !s.threads[t].Idle? || s.mutex.Some? then None
    else if opening && s.shuttingDown then Some(s)
    else Some(At(s, t, Evicting(opening, uid, s.table.Keys)).(mutex := Some(t)))
  }

  /** Looks at one session; its mutex is released again before an evictable one is erased. */
  function ProbeStep(s: Manager, t: Tid, id: Id, take: bool): Option<Manager>
    requires t < |s.threads|
  {
    if !s.threads[t].Evicting? || id !in s.table || s.table[id] >= |s.heap| || s.heap[s.table[id]].lock.Some? then None
    else
      var pc := s.threads[t];
      var session := s.heap[s.table[id]];
      var unseen := pc.unseen - {id};
      if !take || session.closing || session.inFlight then Some(At(s, t, Evicting(pc.opening, pc.uid, unseen)))
      else Some(At(s, t, Chosen(pc.opening, pc.uid, unseen, s.table[id])))
  }

  function EraseStep(s: Manager, t: Tid): Option<Manager>
    requires t < |s.threads|
  {
    if !s.threads[t].Chosen? || s.threads[t].ref >= |s.heap| then None
    else
      var pc := s.threads[t];
      Some(At(s, t, Evicting(pc.opening, pc.uid, pc.unseen)).(table := s.table - {s.heap[pc.ref].id}))
  }

  /** Every session has been looked at. */
  function OpenStep(s: Manager, t: Tid, id: Id, limits: Limits): Option<Manager>
    requires t < |s.threads|
  {
    if !s.threads[t].Evicting? || !s.threads[t].opening || s.threads[t].unseen != {} then None
    else
      var left := At(s, t, Idle).(mutex := None);
      if |s.table| >= limits.maxSessions then Some(left)
      else if id in s.table then None
      else
        Some(left.(heap := s.heap + [Session(id, s.threads[t].uid, false, false, 0, false, None, [], false)],
                   table := s.table[id := |s.heap|]))
  }

  function ReapStep(s: Manager, t: Tid): Option<Manager>
    requires t < |s.threads|
  {
    if !s.threads[t].Evicting? || s.threads[t].opening || s.threads[t].unseen != {} then None
    else Some(At(s, t, Idle).(mutex := None))
  }

  function LookupStep(s: Manager, t: Tid, uid: nat, id: Id, request: nat): Option<Manager>
    requires t < |s.threads|
  {
    if !s.threads[t].Idle? || s.mutex.Some? then None
    else if s.shuttingDown || id !in s.table || s.table[id] >= |s.heap| || s.heap[s.table[id]].owner != uid then Some(s)
    else Some(At(s, t, Found(s.table[id], request)))
  }

  /** The session's mutex can be locked. */
  predicate Free(s: Manager, ref: Ref) {
    ref < |s.heap| && s.heap[ref].lock.None?
  }

  /** Whether the session takes the request. */
  predicate Takes(session: Session, request: nat) {
    !session.closing && !session.inFlight && request != 0 && request > session.lastRequest
  }

  function ClaimStep(s: Manager, t: Tid): Option<Manager>
    requires t < |s.threads|
  {
    if !s.threads[t].Found? || !Free(s, s.threads[t].ref) then None
    else
      var ref, request := s.threads[t].ref, s.threads[t].request;
      var session := s.heap[ref];
      if !Takes(session, request) then Some(At(s, t, Idle))
      else
        Some(At(With(s, ref, session.(inFlight := true, lastRequest := request, accepted := session.accepted + [request])), t, Queued(ref)))
  }

  /** The predicate of the condition variable. */
  predicate MayWake(s: Manager, ref: Ref, limits: Limits) {
    s.shuttingDown || (ref < |s.heap| && s.heap[ref].closing) || s.running < limits.maxConcurrent
  }

  function WakeStep(s: Manager, t: Tid): Option<Manager>
    requires t < |s.threads|
  {
    if !s.threads[t].Queued? || s.predictionMutex.Some? then None
    else Some(At(s, t, Testing(s.threads[t].ref)).(predictionMutex := Some(t)))
  }

  /** Goes on or waits again. */
  function TestStep(s: Manager, t: Tid, limits: Limits): Option<Manager>
    requires t < |s.threads|
  {
    if !s.threads[t].Testing? || !Free(s, s.threads[t].ref) then None
    else
      var ref := s.threads[t].ref;
      if MayWake(s, ref, limits) then Some(At(s, t, Woken(ref))) else Some(At(s, t, Queued(ref)).(predictionMutex := None))
  }

  /** A prediction of a closing session gives up predictionMutex and keeps the session's mutex. */
  function RecheckStep(s: Manager, t: Tid): Option<Manager>
    requires t < |s.threads|
  {
    if !s.threads[t].Woken? || !Free(s, s.threads[t].ref) then None
    else
      var ref := s.threads[t].ref;
      if s.heap[ref].closing then
        Some(At(With(s, ref, s.heap[ref].(lock := Some(t))), t, Cancelling(ref)).(predictionMutex := None))
      else Some(At(s, t, Checked(ref)))
  }

  /** The cancelled prediction locks the session's mutex to release its flag. */
  function CancelReleaseStep(s: Manager, t: Tid): Option<Manager>
    requires t < |s.threads|
  {
    if !s.threads[t].Cancelling? || !Free(s, s.threads[t].ref) then None
    else
      var ref := s.threads[t].ref;
      Some(At(With(s, ref, s.heap[ref].(inFlight := false)), t, Idle))
  }

  /** Where the library detects that a thread locks a mutex twice, it throws instead of blocking; leaving the
      scope unlocks the mutex once. */
  function CancelThrowStep(s: Manager, t: Tid): Option<Manager>
    requires t < |s.threads|
  {
    if !s.threads[t].Cancelling? || s.threads[t].ref >= |s.heap| || s.heap[s.threads[t].ref].lock != Some(t) then None
    else
      var ref := s.threads[t].ref;
      Some(At(With(s, ref, s.heap[ref].(lock := None)), t, Abandoned(ref)))
  }

  function AdmitStep(s: Manager, t: Tid): Option<Manager>
    requires t < |s.threads|
  {
    if !s.threads[t].Checked? then None
    else
      var ref := s.threads[t].ref;
      if s.shuttingDown then Some(At(s, t, Cancelled(ref)).(predictionMutex := None))
      else Some(At(s, t, Running(ref)).(predictionMutex := None, running := s.running + 1))
  }

  function ReleaseStep(s: Manager, t: Tid): Option<Manager>
    requires t < |s.threads|
  {
    if !s.threads[t].Cancelled? || !Free(s, s.threads[t].ref) then None
    else
      var ref := s.threads[t].ref;
      Some(At(With(s, ref, s.heap[ref].(inFlight := false)), t, Idle))
  }

  /** Creates the engine when there is none, which may fail, and runs it under the session's mutex. */
  function RunStep(s: Manager, t: Tid, made: bool): Option<Manager>
    requires t < |s.threads|
  {
    if !s.threads[t].Running? || !Free(s, s.threads[t].ref) then None
    else
      var ref := s.threads[t].ref;
      Some(At(With(s, ref, s.heap[ref].(engine := s.heap[ref].engine || made)), t, Finishing(ref)))
  }

  function DecrementStep(s: Manager, t: Tid): Option<Manager>
    requires t < |s.threads|
  {
    if !s.threads[t].Finishing? || s.predictionMutex.Some? then None
    else Some(At(s, t, Finished(s.threads[t].ref)).(running := if s.running > 0 then s.running - 1 else 0))
  }

  function ClearFlagStep(s: Manager, t: Tid): Option<Manager>
    requires t < |s.threads|
  {
    if !s.threads[t].Finished? || !Free(s, s.threads[t].ref) then None
    else
      var ref := s.threads[t].ref;
      Some(At(With(s, ref, s.heap[ref].(inFlight := false)), t, Leaving))
  }

  function LeaveStep(s: Manager, t: Tid): Option<Manager>
    requires t < |s.threads|
  {
    if !s.threads[t].Leaving? || s.mutex.Some? then None else Some(At(s, t, Idle))
  }

  function CloseStep(s: Manager, t: Tid, uid: nat, id: Id): Option<Manager>
    requires t < |s.threads|
  {
    if !s.threads[t].Idle? || s.mutex.Some? then None
    else if id !in s.table || s.table[id] >= |s.heap| || s.heap[s.table[id]].owner != uid then Some(s)
    else Some(At(s, t, Closing(s.table[id], id)).(mutex := Some(t)))
  }

  function CloseMarkStep(s: Manager, t: Tid): Option<Manager>
    requires t < |s.threads|
  {
    if !s.threads[t].Closing? || !Free(s, s.threads[t].ref) then None
    else
      var ref := s.threads[t].ref;
      Some(At(With(s, ref, s.heap[ref].(closing := true)), t, Draining(ref, s.threads[t].id)).(mutex := None))
  }

  function DrainStep(s: Manager, t: Tid): Option<Manager>
    requires t < |s.threads|
  {
    if !s.threads[t].Draining? || !Free(s, s.threads[t].ref) || s.heap[s.threads[t].ref].inFlight then None
    else
      var ref := s.threads[t].ref;
      Some(At(With(s, ref, s.heap[ref].(engine := false, destroyed := true)), t, Erasing(ref, s.threads[t].id)))
  }

  /** Erases by id, whatever session has that id by then. */
  function EraseIdStep(s: Manager, t: Tid): Option<Manager>
    requires t < |s.threads|
  {
    if !s.threads[t].Erasing? || s.mutex.Some? then None
    else Some(At(s, t, Idle).(table := s.table - {s.threads[t].id}))
  }

  function ShutdownStep(s: Manager, t: Tid): Option<Manager>
    requires t < |s.threads|
  {
    if !s.threads[t].Idle? || s.mutex.Some? then None
    else if s.shuttingDown && s.table == map[] then Some(s)
    else Some(At(s, t, Marking([], s.table.Keys)).(mutex := Some(t), shuttingDown := true))
  }

  function MarkStep(s: Manager, t: Tid, id: Id): Option<Manager>
    requires t < |s.threads|
  {
    if !s.threads[t].Marking? || id !in s.threads[t].unmarked || id !in s.table || !Free(s, s.table[id]) then None
    else
      var ref := s.table[id];
      Some(At(With(s, ref, s.heap[ref].(closing := true)), t, Marking(s.threads[t].all + [ref], s.threads[t].unmarked - {id})))
  }

  function MarkEndStep(s: Manager, t: Tid): Option<Manager>
    requires t < |s.threads|
  {
    if !s.threads[t].Marking? || s.threads[t].unmarked != {} then None
    else Some(At(s, t, Notifying(s.threads[t].all)).(mutex := None))
  }

  function NotifyStep(s: Manager, t: Tid): Option<Manager>
    requires t < |s.threads|
  {
    if !s.threads[t].Notifying? || s.predictionMutex.Some? then None else Some(At(s, t, DrainingAll(s.threads[t].all, 0)))
  }

  function DrainNextStep(s: Manager, t: Tid): Option<Manager>
    requires t < |s.threads|
  {
    if !s.threads[t].DrainingAll? || s.threads[t].done >= |s.threads[t].all| then None
    else
      var all, done := s.threads[t].all, s.threads[t].done;
      var ref := all[done];
      if !Free(s, ref) || s.heap[ref].inFlight then None
      else Some(At(With(s, ref, s.heap[ref].(engine := false, destroyed := true)), t, DrainingAll(all, done + 1)))
  }

  function DrainEndStep(s: Manager, t: Tid): Option<Manager>
    requires t < |s.threads|
  {
    if !s.threads[t].DrainingAll? || s.threads[t].done < |s.threads[t].all| then None else Some(At(s, t, ClearingAll(s.threads[t].all)))
  }

  function ClearAllStep(s: Manager, t: Tid): Option<Manager>
    requires t < |s.threads|
  {
    if !s.threads[t].ClearingAll? || s.mutex.Some? then None else Some(At(s, t, Idle).(table := map[]))
  }

  /** One step of thread `t`; None when the thread cannot take it now. */
  function Step(s: Manager, t: Tid, a: Action, limits: Limits): Option<Manager>
    requires t < |s.threads|
  {
    match a
    case OpenBegin(uid) => BeginEvicting(s, t, true, uid)
    case ReapBegin => BeginEvicting(s, t, false, 0)
    case EvictProbe(id, take) => ProbeStep(s, t, id, take)
    case EvictErase => EraseStep(s, t)
    case OpenFinish(id) => OpenStep(s, t, id, limits)
    case ReapFinish => ReapStep(s, t)
    case Lookup(uid, id, request) => LookupStep(s, t, uid, id, request)
    case Claim => ClaimStep(s, t)
    case Wake => WakeStep(s, t)
    case Test => TestStep(s, t, limits)
    case Recheck => RecheckStep(s, t)
    case CancelRelease => CancelReleaseStep(s, t)
    case CancelThrow => CancelThrowStep(s, t)
    case Admit => AdmitStep(s, t)
    case Release => ReleaseStep(s, t)
    case RunEngine(made) => RunStep(s, t, made)
    case Decrement => DecrementStep(s, t)
    case ClearFlag => ClearFlagStep(s, t)
    case Leave => LeaveStep(s, t)
    case CloseBegin(uid, id) => CloseStep(s, t, uid, id)
    case CloseMark => CloseMarkStep(s, t)
    case Drain => DrainStep(s, t)
    case EraseId => EraseIdStep(s, t)
    case ShutdownBegin => ShutdownStep(s, t)
    case Mark(id) => MarkStep(s, t, id)
    case MarkEnd => MarkEndStep(s, t)
    case Notify => NotifyStep(s, t)
    case DrainNext => DrainNextStep(s, t)
    case DrainEnd => DrainEndStep(s, t)
    case ClearAll => ClearAllStep(s, t)
  }

  // ----- counting -----

  /** Between admission and the decrement. */
  predicate Counted(pc: Pc) {
    pc.Running? || pc.Finishing?
  }

  /** Between the claim of session `ref` and the release of its flag. */
  predicate Owns(pc: Pc, ref: Ref) {
    match pc
    case Queued(r) => r == ref
    case Testing(r) => r == ref
    case Woken(r) => r == ref
    case Checked(r) => r == ref
    case Cancelling(r) => r == ref
    case Abandoned(r) => r == ref
    case Cancelled(r) => r == ref
    case Running(r) => r == ref
    case Finishing(r) => r == ref
    case Finished(r) => r == ref
    case _ => false
  }

  function CountedThreads(threads: seq<Pc>): nat {
    if threads == [] then 0 else (if Counted(threads[0]) then 1 else 0) + CountedThreads(threads[1..])
  }

  function Owners(threads: seq<Pc>, ref: Ref): nat {
    if threads == [] then 0 else (if Owns(threads[0], ref) then 1 else 0) + Owners(threads[1..], ref)
  }

  lemma {:induction false} CountUpdate(threads: seq<Pc>, t: Tid, pc: Pc)
    requires t < |threads|
    ensures CountedThreads(threads[t := pc]) + (if Counted(threads[t]) then 1 else 0) ==
            CountedThreads(threads) + if Counted(pc) then 1 else 0
  {
    var next := threads[t := pc];
    if t > 0 {
      CountUpdate(threads[1..], t - 1, pc);
      assert next[1..] == threads[1..][t - 1 := pc];
    } else {
      assert next[1..] == threads[1..];
    }
  }

  lemma {:induction false} OwnersUpdate(threads: seq<Pc>, t: Tid, pc: Pc, ref: Ref)
    requires t < |threads|
    ensures Owners(threads[t := pc], ref) + (if Owns(threads[t], ref) then 1 else 0) ==
            Owners(threads, ref) + if Owns(pc, ref) then 1 else 0
  {
    hide Owns;
    var next := threads[t := pc];
    if t > 0 {
      OwnersUpdate(threads[1..], t - 1, pc, ref);
      assert next[1..] == threads[1..][t - 1 := pc];
    } else {
      assert next[1..] == threads[1..];
    }
  }

  lemma {:induction false} OwnerCounts(threads: seq<Pc>, t: Tid, ref: Ref)
    requires t < |threads| && Owns(threads[t], ref)
    ensures Owners(threads, ref) >= 1
  {
    hide Owns;
    if t > 0 {
      OwnerCounts(threads[1..], t - 1, ref);
    }
  }

  lemma {:induction false} NoOwners(threads: seq<Pc>, ref: Ref)
    requires Owners(threads, ref) == 0
    ensures forall t :: 0 <= t < |threads| ==> !Owns(threads[t], ref)
  {
    hide Owns;
    forall t | 0 <= t < |threads| ensures !Owns(threads[t], ref) {
      if Owns(threads[t], ref) {
        OwnerCounts(threads, t, ref);
      }
    }
  }
}
