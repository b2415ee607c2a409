/** The client's service transport under concurrency (engine/src/engine/service_transport.cpp). Callers enqueue, one
    worker sends and answers, one controller stops and reconfigures. A step is one critical section or one callback;
    what the socket does is any outcome. */
module ServiceTransport {
  import opened Wrappers
  import opened Sequences
  import Utf
  import opened Messages

  const COMMIT_LIMIT := 128

  datatype Kind = Open | Predict | Close | Status | Shutdown | RecordCommit | DiscardCommit

  datatype ErrorCode = ProtocolError | ModelError | ServiceShuttingDown

  datatype Request = Request(kind: Kind, message: Message, callback: bool)

  /** The public calls pair each kind with one message. */
  predicate Fits(kind: Kind, message: Message) {
    match kind
    case Open => message.OpenSessionRequest?
    case Predict => message.PredictRequest?
    case Close => message.CloseSessionRequest?
    case Status => message.StatusRequest?
    case Shutdown => message.ShutdownRequest?
    case RecordCommit => message.RecordCommitRequest?
    case DiscardCommit => message.DiscardCommitRequest?
  }

  // ----- correlation -----

  predicate Matches(kind: Kind, request: Message, response: Message) {
    response.Error? ||
    match kind
    case Open => response.OpenSessionResponse?
    case Predict =>
      request.PredictRequest? && response.Prediction? && request.sessionId == response.sessionId &&
      request.requestId == response.requestId && request.bufferRevision == response.bufferRevision
    case Close => request.CloseSessionRequest? && response.CloseSessionResponse? && request.sessionId == response.sessionId
    case Status => response.StatusResponse?
    case Shutdown => response.ShutdownResponse?
    case RecordCommit => request.RecordCommitRequest? && response.RecordCommitResponse? && request.commit.eventId == response.eventId
    case DiscardCommit => request.DiscardCommitRequest? && response.DiscardCommitResponse? && request.eventId == response.eventId
  }

  const NO_ID: Id := [0, 0, 0, 0, 0, 0, 0, 0, 0, 0, 0, 0, 0, 0, 0, 0]

  function CodeNumber(code: ErrorCode): nat {
    match code case ProtocolError => 3 case ModelError => 8 case ServiceShuttingDown => 9
  }

  function CorrelationError(request: Message, code: ErrorCode, text: seq<Utf.Byte>): Message {
    match request
    case PredictRequest(session, id, revision, _, _) => Message.Error(CodeNumber(code), session, id, revision, text)
    case CloseSessionRequest(session) => Message.Error(CodeNumber(code), session, 0, 0, text)
    case _ => Message.Error(CodeNumber(code), NO_ID, 0, 0, text)
  }

  // ----- the machine -----

  datatype Worker = Waiting | Holding(id: nat) | Leaving | Draining(rest: seq<nat>) | Exited

  datatype Controller = Free | Stopping(restart: bool) | Joined(restart: bool)

  datatype Answer = Answer(id: nat, message: Message)

  /** A request is named by its place in `issued`. `pushed`, `dequeued`, `completed` and `rejected` are the history
      of the queue, of the worker and of refused calls; `dropped` holds the requests given up without a callback. */
  datatype Transport = Transport(
    issued: seq<Request>,
    queue: seq<nat>,
    stopping: bool,
    worker: Worker,
    controller: Controller,
    pushed: seq<nat>,
    dequeued: seq<nat>,
    completed: seq<nat>,
    rejecting: set<nat>,
    rejected: set<nat>,
    dropped: set<nat>,
    answers: seq<Answer>)

  const STARTED := Transport([], [], false, Waiting, Free, [], [], [], {}, {}, {}, [])

  /** What came of one exchange with the service. */
  datatype Outcome = Reply(response: Message) | Stopped(text: seq<Utf.Byte>) | BadFrame(text: seq<Utf.Byte>) | Failed(text: seq<Utf.Byte>)

  datatype Action =
    | Enqueue(request: Request)
    | Reject(id: nat, text: seq<Utf.Byte>)
    | Take
    | Finish(outcome: Outcome)
    | Leave
    | Swap
    | FailNext(text: seq<Utf.Byte>)
    | Exit
    | StopBegin(restart: bool)
    | Join
    | StopEnd

  function Ascii(text: string): seq<Utf.Byte> {
    seq(|text|, i requires 0 <= i < |text| => text[i] as int % 256)
  }

  const MISMATCH := Ascii("service response correlation mismatch")

  function Delivered(request: Request, outcome: Outcome): Message {
    match outcome
    case Reply(response) =>
      if Matches(request.kind, request.message, response) then response
      else CorrelationError(request.message, ProtocolError, MISMATCH)
    case Stopped(text) => CorrelationError(request.message, ServiceShuttingDown, text)
    case BadFrame(text) => CorrelationError(request.message, ProtocolError, text)
    case Failed(text) => CorrelationError(request.message, ModelError, text)
  }

  /** The callback of a request, if it has one, is called with `message`. */
  function Called(s: Transport, id: nat, message: Message): seq<Answer> {
    if id < |s.issued| && s.issued[id].callback then s.answers + [Answer(id, message)] else s.answers
  }

  /** enqueue, under the mutex. Recording and discarding pass no callback. */
  function EnqueueStep(s: Transport, request: Request): Option<Transport> {
    var id := |s.issued|;
    var called := s.(issued := s.issued + [request]);
    if !Fits(request.kind, request.message) || (request.callback && (request.kind.RecordCommit? || request.kind.DiscardCommit?)) then None
    else if s.stopping then
      Some(if request.callback then called.(rejecting := s.rejecting + {id}) else called.(dropped := s.dropped + {id}))
    else if request.kind.RecordCommit? && |s.queue| >= COMMIT_LIMIT then Some(called.(dropped := s.dropped + {id}))
    else Some(called.(queue := s.queue + [id], pushed := s.pushed + [id]))
  }

  /** The refused caller's own callback, outside the mutex. */
  function RejectStep(s: Transport, id: nat, text: seq<Utf.Byte>): Option<Transport> {
    if id !in s.rejecting || id >= |s.issued| then None
    else
      Some(s.(rejecting := s.rejecting - {id}, rejected := s.rejected + {id},
              answers := Called(s, id, CorrelationError(s.issued[id].message, ServiceShuttingDown, text))))
  }

  function TakeStep(s: Transport): Option<Transport> {
    if !s.worker.Waiting? || s.queue == [] then None
    else Some(s.(worker := Holding(s.queue[0]), queue := s.queue[1..], dequeued := s.dequeued + [s.queue[0]]))
  }

  function FinishStep(s: Transport, outcome: Outcome): Option<Transport> {
    if !s.worker.Holding? || s.worker.id >= |s.issued| || (outcome.Stopped? && !s.stopping) then None
    else
      var id := s.worker.id;
      Some(s.(worker := Waiting, completed := s.completed + [id], answers := Called(s, id, Delivered(s.issued[id], outcome))))
  }

  function LeaveStep(s: Transport): Option<Transport> {
    if s.worker.Waiting? && s.stopping && s.queue == [] then Some(s.(worker := Leaving)) else None
  }

  function SwapStep(s: Transport): Option<Transport> {
    if s.worker.Leaving? then Some(s.(worker := Draining(s.queue), queue := [], dequeued := s.dequeued + s.queue)) else None
  }

  function FailNextStep(s: Transport, text: seq<Utf.Byte>): Option<Transport> {
    if !s.worker.Draining? || s.worker.rest == [] || s.worker.rest[0] >= |s.issued| then None
    else
      var id := s.worker.rest[0];
      Some(s.(worker := Draining(s.worker.rest[1..]), completed := s.completed + [id],
              answers := Called(s, id, CorrelationError(s.issued[id].message, ServiceShuttingDown, text))))
  }

  function ExitStep(s: Transport): Option<Transport> {
    if s.worker == Draining([]) then Some(s.(worker := Exited)) else None
  }

  function StopBeginStep(s: Transport, restart: bool): Option<Transport> {
    if s.controller.Free? then Some(s.(controller := Stopping(restart), stopping := true)) else None
  }

  /** The join returns once the worker has exited. */
  function JoinStep(s: Transport): Option<Transport> {
    if s.controller.Stopping? && s.worker.Exited? then Some(s.(controller := Joined(s.controller.restart))) else None
  }

  /** stop returns; reconfigure goes on to start a new worker. */
  function StopEndStep(s: Transport): Option<Transport> {
    if !s.controller.Joined? then None
    else if s.controller.restart then Some(s.(controller := Free, stopping := false, worker := Waiting))
    else Some(s.(controller := Free))
  }

  function Next(s: Transport, action: Action): Option<Transport> {
    match action
    case Enqueue(request) => EnqueueStep(s, request)
    case Reject(id, text) => RejectStep(s, id, text)
    case Take => TakeStep(s)
    case Finish(outcome) => FinishStep(s, outcome)
    case Leave => LeaveStep(s)
    case Swap => SwapStep(s)
    case FailNext(text) => FailNextStep(s, text)
    case Exit => ExitStep(s)
    case StopBegin(restart) => StopBeginStep(s, restart)
    case Join => JoinStep(s)
    case StopEnd => StopEndStep(s)
  }

  // ----- the invariant -----

  function InHand(worker: Worker): seq<nat> {
    match worker case Holding(id) => [id] case Draining(rest) => rest case _ => []
  }

  predicate Ascending(ids: seq<nat>, bound: nat) {
    (forall i :: 0 <= i < |ids| ==> ids[i] < bound) && forall i, j :: 0 <= i < j < |ids| ==> ids[i] < ids[j]
  }

  /** First in, first out: what was pushed is what was dequeued followed by the queue, and the worker completes
      requests in the order it dequeued them. */
  ghost predicate Fifo(s: Transport) {
    s.pushed == s.dequeued + s.queue && s.dequeued == s.completed + InHand(s.worker) && Ascending(s.pushed, |s.issued|)
  }

  /** Every issued request is in exactly one of: pushed, being refused, refused, dropped. */
  ghost predicate Accounted(s: Transport) {
    && (forall id: nat :: id < |s.issued| ==> id in s.pushed || id in s.rejecting || id in s.rejected || id in s.dropped)
    && (forall id :: id in s.rejecting || id in s.rejected || id in s.dropped ==> id < |s.issued| && id !in s.pushed)
    && s.rejecting !! s.rejected !! s.dropped
    && (forall id :: id in s.rejecting || id in s.rejected ==> id < |s.issued| && s.issued[id].callback)
    && (forall id :: id in s.dropped ==> id < |s.issued| && !s.issued[id].callback)
  }

  predicate Answered(s: Transport, id: nat) {
    exists k :: 0 <= k < |s.answers| && s.answers[k].id == id
  }

  /** A request is answered once, when it has a callback and the worker or its own caller is done with it. */
  ghost predicate AnsweredOnce(s: Transport) {
    && (forall i, j :: 0 <= i < j < |s.answers| ==> s.answers[i].id != s.answers[j].id)
    && (forall id: nat :: Answered(s, id) <==> id < |s.issued| && s.issued[id].callback && (id in s.completed || id in s.rejected))
    && (forall k :: 0 <= k < |s.answers| && s.answers[k].id < |s.issued| ==>
          Matches(s.issued[s.answers[k].id].kind, s.issued[s.answers[k].id].message, s.answers[k].message))
  }

  /** Once the worker leaves its loop the transport is stopping and the queue stays empty. */
  ghost predicate Quiet(s: Transport) {
    && (s.controller != Free ==> s.stopping)
    && (s.worker.Leaving? || s.worker.Draining? || s.worker.Exited? ==> s.stopping && s.queue == [])
    && (s.worker.Draining? ==> s.worker.rest == [])
    && (s.controller.Joined? ==> s.worker.Exited?)
  }

  predicate IsCommit(s: Transport, id: nat) {
    id < |s.issued| && s.issued[id].kind.RecordCommit?
  }

  /** The recorded commits among the queued requests. */
  function CommitsIn(s: Transport, ids: seq<nat>): nat {
    if ids == [] then 0 else (if IsCommit(s, ids[0]) then 1 else 0) + CommitsIn(s, ids[1..])
  }

  ghost predicate Inv(s: Transport) {
    Fifo(s) && Accounted(s) && AnsweredOnce(s) && Quiet(s) && CommitsIn(s, s.queue) <= COMMIT_LIMIT
  }

  // ----- every step keeps it -----

  lemma AscendingPush(ids: seq<nat>, bound: nat)
    requires Ascending(ids, bound)
    ensures Ascending(ids, bound + 1) && Ascending(ids + [bound], bound + 1) && bound !in ids
  {
  }

  lemma {:induction false} CommitsPush(s: Transport, ids: seq<nat>, id: nat)
    ensures CommitsIn(s, ids + [id]) == CommitsIn(s, ids) + (if IsCommit(s, id) then 1 else 0)
  {
    hide IsCommit;
    if ids == [] {
      NothingAdded([id]);
      assert CommitsIn(s, [id]) == (if IsCommit(s, id) then 1 else 0) + CommitsIn(s, [id][1..]);
    } else {
      TailOfSum(ids, [id]);
      CommitsPush(s, ids[1..], id);
    }
  }

  lemma {:induction false} CommitsBounded(s: Transport, ids: seq<nat>)
    ensures CommitsIn(s, ids) <= |ids|
  {
    if ids != [] {
      CommitsBounded(s, ids[1..]);
    }
  }

  lemma {:induction false} CommitsSame(s: Transport, u: Transport, ids: seq<nat>)
    requires s.issued <= u.issued && forall i :: 0 <= i < |ids| ==> ids[i] < |s.issued|
    ensures CommitsIn(s, ids) == CommitsIn(u, ids)
  {
    if ids != [] {
      CommitsSame(s, u, ids[1..]);
    }
  }

  lemma QueueIsPushed(s: Transport)
    requires Fifo(s)
    ensures forall i :: 0 <= i < |s.queue| ==> s.queue[i] in s.pushed && s.queue[i] < |s.issued|
    ensures forall id :: id in s.completed ==> id in s.pushed && id < |s.issued|
  {
    assert forall i :: 0 <= i < |s.queue| ==> s.pushed[|s.dequeued| + i] == s.queue[i];
    assert forall i :: 0 <= i < |s.completed| ==> s.pushed[i] == s.completed[i];
  }

  /** The request the worker is about to finish has not been finished or refused. */
  lemma HandIsOpen(s: Transport)
    requires Fifo(s) && Accounted(s) && InHand(s.worker) != []
    ensures var id := InHand(s.worker)[0];
      id < |s.issued| && id in s.pushed && id !in s.completed && id !in s.rejected
  {
    var id := InHand(s.worker)[0];
    assert s.pushed[|s.completed|] == id;
    assert forall i :: 0 <= i < |s.completed| ==> s.pushed[i] == s.completed[i];
  }

  lemma EnqueueKeeps(s: Transport, request: Request)
    requires Inv(s) && EnqueueStep(s, request).Some?
    ensures Inv(EnqueueStep(s, request).value)
  {
    var u := EnqueueStep(s, request).value;
    EnqueueAccounts(s, request);
    EnqueueAnswers(s, request);
    EnqueueCounts(s, request);
    assert Quiet(u);
  }

  lemma EnqueueAccounts(s: Transport, request: Request)
    requires Fifo(s) && Accounted(s) && EnqueueStep(s, request).Some?
    ensures Fifo(EnqueueStep(s, request).value) && Accounted(EnqueueStep(s, request).value)
  {
    hide Ascending;
    var u := EnqueueStep(s, request).value;
    var id := |s.issued|;
    AscendingPush(s.pushed, id);
    Associative(s.dequeued, s.queue, [id]);
    assert forall i: nat :: i < id ==> u.issued[i] == s.issued[i];
    assert forall i :: i in s.pushed ==> i in u.pushed;
  }

  lemma EnqueueAnswers(s: Transport, request: Request)
    requires Fifo(s) && Accounted(s) && AnsweredOnce(s) && EnqueueStep(s, request).Some?
    ensures AnsweredOnce(EnqueueStep(s, request).value)
  {
    hide Matches, Ascending;
    var u := EnqueueStep(s, request).value;
    QueueIsPushed(s);
    AscendingPush(s.pushed, |s.issued|);
    assert u.answers == s.answers && u.completed == s.completed && u.rejected == s.rejected;
    assert forall id: nat :: Answered(u, id) == Answered(s, id);
    assert forall k :: 0 <= k < |s.answers| ==> Answered(s, s.answers[k].id);
  }

  lemma {:induction false} EnqueueCounts(s: Transport, request: Request)
    requires Fifo(s) && CommitsIn(s, s.queue) <= COMMIT_LIMIT && EnqueueStep(s, request).Some?
    ensures var u := EnqueueStep(s, request).value; CommitsIn(u, u.queue) <= COMMIT_LIMIT
  {
    var u := EnqueueStep(s, request).value;
    QueueIsPushed(s);
    CommitsSame(s, u, s.queue);
    CommitsBounded(s, s.queue);
    CommitsPush(u, s.queue, |s.issued|);
  }

  /** Answering a request that was open, by the worker or by its own caller. */
  lemma AnswerKeeps(s: Transport, u: Transport, id: nat, message: Message)
    requires AnsweredOnce(s) && id < |s.issued| && !Answered(s, id)
    requires Matches(s.issued[id].kind, s.issued[id].message, message)
    requires u.issued == s.issued && u.answers == Called(s, id, message)
    requires forall i :: (i in u.completed || i in u.rejected) <==> (i in s.completed || i in s.rejected || i == id)
    ensures AnsweredOnce(u)
  {
    hide Matches;
    if s.issued[id].callback {
      var n := |s.answers|;
      assert u.answers[n].id == id;
      forall k | 0 <= k < n ensures s.answers[k].id != id && u.answers[k] == s.answers[k] {
        assert s.answers[k].id == id ==> Answered(s, id);
      }
      forall i: nat ensures Answered(u, i) <==> Answered(s, i) || i == id {
        if Answered(s, i) {
          var k :| 0 <= k < n && s.answers[k].id == i;
          assert u.answers[k].id == i;
        }
        if Answered(u, i) && i != id {
          var k :| 0 <= k < |u.answers| && u.answers[k].id == i;
          assert k < n;
        }
      }
    } else {
      assert forall i: nat :: Answered(u, i) == Answered(s, i);
    }
  }

  lemma DeliveredMatches(request: Request, outcome: Outcome)
    ensures Matches(request.kind, request.message, Delivered(request, outcome))
  {
  }

  lemma ErrorMatches(request: Request, code: ErrorCode, text: seq<Utf.Byte>)
    ensures Matches(request.kind, request.message, CorrelationError(request.message, code, text))
  {
  }

  lemma RejectKeeps(s: Transport, id: nat, text: seq<Utf.Byte>)
    requires Inv(s) && RejectStep(s, id, text).Some?
    ensures Inv(RejectStep(s, id, text).value)
  {
    hide Matches, CommitsIn, CorrelationError;
    var u := RejectStep(s, id, text).value;
    QueueIsPushed(s);
    ErrorMatches(s.issued[id], ServiceShuttingDown, text);
    AnswerKeeps(s, u, id, CorrelationError(s.issued[id].message, ServiceShuttingDown, text));
    CommitsSame(s, u, s.queue);
  }

  lemma {:induction false} CommitsTail(s: Transport, ids: seq<nat>)
    requires ids != []
    ensures CommitsIn(s, ids[1..]) <= CommitsIn(s, ids)
  {
  }

  lemma TakeFifo(s: Transport)
    requires Fifo(s) && TakeStep(s).Some?
    ensures Fifo(TakeStep(s).value)
  {
    hide Ascending;
    PushOne(s.queue, 0);
    Whole(s.queue);
    Associative(s.dequeued, [s.queue[0]], s.queue[1..]);
    NothingAdded(s.completed);
  }

  lemma TakeKeeps(s: Transport)
    requires Inv(s) && TakeStep(s).Some?
    ensures Inv(TakeStep(s).value)
  {
    hide Fifo, Accounted, AnsweredOnce, CommitsIn;
    var u := TakeStep(s).value;
    TakeFifo(s);
    QueueIsPushed(u);
    CommitsSame(s, u, u.queue);
    CommitsTail(s, s.queue);
    SameAccounts(s, u);
  }

  /** Accounting and answers depend on these parts only. */
  lemma SameAccounts(s: Transport, u: Transport)
    requires u.issued == s.issued && u.pushed == s.pushed && u.completed == s.completed && u.answers == s.answers
    requires u.rejecting == s.rejecting && u.rejected == s.rejected && u.dropped == s.dropped
    ensures Accounted(s) ==> Accounted(u)
    ensures AnsweredOnce(s) ==> AnsweredOnce(u)
  {
    hide Matches;
    assert forall id: nat :: Answered(u, id) == Answered(s, id);
  }

  lemma FinishFifo(s: Transport, outcome: Outcome)
    requires Fifo(s) && FinishStep(s, outcome).Some?
    ensures Fifo(FinishStep(s, outcome).value)
  {
    hide Delivered, Ascending;
    NothingAdded(s.completed + [s.worker.id]);
  }

  lemma FinishKeeps(s: Transport, outcome: Outcome)
    requires Inv(s) && FinishStep(s, outcome).Some?
    ensures Inv(FinishStep(s, outcome).value)
  {
    hide Fifo, AnsweredOnce, Matches, CommitsIn, Delivered, Called, Answered;
    var u := FinishStep(s, outcome).value;
    var id := s.worker.id;
    FinishFifo(s, outcome);
    HandIsOpen(s);
    NotYetAnswered(s, id);
    DeliveredMatches(s.issued[id], outcome);
    AnswerKeeps(s, u, id, Delivered(s.issued[id], outcome));
    QueueIsPushed(s);
    CommitsSame(s, u, s.queue);
  }

  lemma NotYetAnswered(s: Transport, id: nat)
    requires AnsweredOnce(s) && id !in s.completed && id !in s.rejected
    ensures !Answered(s, id)
  {
    hide Matches;
  }

  /** The drain after the loop never finds a request. */
  lemma DrainFindsNothing(s: Transport)
    requires Inv(s)
    ensures s.worker.Leaving? ==> s.queue == []
    ensures forall text :: FailNextStep(s, text).None?
  {
  }

  lemma WorkerLeaves(s: Transport)
    requires Inv(s)
    ensures LeaveStep(s).Some? ==> Inv(LeaveStep(s).value)
    ensures SwapStep(s).Some? ==> Inv(SwapStep(s).value)
    ensures ExitStep(s).Some? ==> Inv(ExitStep(s).value)
  {
    hide Matches, Accounted, AnsweredOnce;
    SameAccounts(s, if LeaveStep(s).Some? then LeaveStep(s).value else s);
    SameAccounts(s, if SwapStep(s).Some? then SwapStep(s).value else s);
    SameAccounts(s, if ExitStep(s).Some? then ExitStep(s).value else s);
    NothingAdded(s.dequeued);
  }

  lemma ControllerKeeps(s: Transport, restart: bool)
    requires Inv(s)
    ensures StopBeginStep(s, restart).Some? ==> Inv(StopBeginStep(s, restart).value)
    ensures JoinStep(s).Some? ==> Inv(JoinStep(s).value)
    ensures StopEndStep(s).Some? ==> Inv(StopEndStep(s).value)
  {
    hide Matches, Accounted, AnsweredOnce;
    if StopBeginStep(s, restart).Some? {
      QueueIsPushed(s);
      CommitsSame(s, StopBeginStep(s, restart).value, s.queue);
      SameAccounts(s, StopBeginStep(s, restart).value);
    }
    SameAccounts(s, if JoinStep(s).Some? then JoinStep(s).value else s);
    SameAccounts(s, if StopEndStep(s).Some? then StopEndStep(s).value else s);
  }

  /** Every step of every thread keeps the invariant. */
  lemma StepKeeps(s: Transport, action: Action)
    requires Inv(s) && Next(s, action).Some?
    ensures Inv(Next(s, action).value)
  {
    hide Inv;
    match action
    case Enqueue(request) => EnqueueKeeps(s, request);
    case Reject(id, text) => RejectKeeps(s, id, text);
    case Take => TakeKeeps(s);
    case Finish(outcome) => FinishKeeps(s, outcome);
    case Leave => WorkerLeaves(s);
    case Swap => WorkerLeaves(s);
    case FailNext(text) => DrainFindsNothing(s);
    case Exit => WorkerLeaves(s);
    case StopBegin(restart) => ControllerKeeps(s, restart);
    case Join => ControllerKeeps(s, false);
    case StopEnd => ControllerKeeps(s, false);
  }

  // ----- runs -----

  ghost predicate IsRun(states: seq<Transport>, actions: seq<Action>) {
    |states| == |actions| + 1 && states[0] == STARTED &&
    forall i :: 0 <= i < |actions| ==> Next(states[i], actions[i]) == Some(states[i + 1])
  }

  lemma {:induction false} RunKeeps(states: seq<Transport>, actions: seq<Action>, i: nat)
    requires IsRun(states, actions) && i < |states|
    ensures Inv(states[i])
  {
    hide Inv, Next;
    if i == 0 {
      StartIsFine();
    } else {
      RunKeeps(states, actions, i - 1);
      assert Next(states[i - 1], actions[i - 1]) == Some(states[i - 1 + 1]);
      StepKeeps(states[i - 1], actions[i - 1]);
    }
  }

  lemma StartIsFine()
    ensures Inv(STARTED)
  {
  }

  /** One answer names the request, and only one. */
  ghost predicate AnsweredExactlyOnce(s: Transport, id: nat) {
    exists k :: 0 <= k < |s.answers| && s.answers[k].id == id &&
      forall j :: 0 <= j < |s.answers| && j != k ==> s.answers[j].id != id
  }

  lemma NothingIsLeft(s: Transport, id: nat)
    requires Inv(s) && s.worker.Exited?
    ensures s.queue == [] && s.completed == s.pushed
    ensures id in s.pushed && id < |s.issued| && s.issued[id].callback ==> AnsweredExactlyOnce(s, id)
  {
    hide Matches, Accounted, CommitsIn;
    NothingAdded(s.completed);
    NothingAdded(s.dequeued);
    if id in s.pushed && id < |s.issued| && s.issued[id].callback {
      assert Answered(s, id);
      var k :| 0 <= k < |s.answers| && s.answers[k].id == id;
      assert forall j :: 0 <= j < |s.answers| && j != k ==> s.answers[j].id != id;
    }
  }

  /** When stop has joined the worker nothing is left: the queue is empty, and every request that was taken on
      has been answered exactly once if it has a callback. */
  lemma StopLeavesNothing(states: seq<Transport>, actions: seq<Action>, i: nat, id: nat)
    requires IsRun(states, actions) && i < |states| && states[i].controller.Joined?
    ensures states[i].queue == [] && states[i].completed == states[i].pushed
    ensures id in states[i].pushed && id < |states[i].issued| && states[i].issued[id].callback ==> AnsweredExactlyOnce(states[i], id)
  {
    hide Next, IsRun, Fifo, Accounted, AnsweredOnce, CommitsIn, AnsweredExactlyOnce;
    RunKeeps(states, actions, i);
    NothingIsLeft(states[i], id);
  }

  /** Requests are completed in the order they were pushed, and no request is answered twice. */
  lemma InOrderAndOnce(states: seq<Transport>, actions: seq<Action>, i: nat)
    requires IsRun(states, actions) && i < |states|
    ensures states[i].completed <= states[i].pushed
    ensures forall j, k :: 0 <= j < k < |states[i].answers| ==> states[i].answers[j].id != states[i].answers[k].id
    ensures CommitsIn(states[i], states[i].queue) <= COMMIT_LIMIT
  {
    hide Matches, Next, IsRun, Accounted, CommitsIn;
    RunKeeps(states, actions, i);
    var s := states[i];
    Associative(s.completed, InHand(s.worker), s.queue);
  }

  // ----- stopping ends -----

  /** What the worker still has to do before it exits. */
  function Remaining(s: Transport): nat {
    2 * |s.queue| + match s.worker
      case Holding(_) => 4
      case Waiting => 3
      case Leaving => 2
      case Draining(_) => 1
      case Exited => 0
  }

  /** While the transport is stopping, the worker always has a step to take until it exits, each of its steps brings
      the exit nearer, and nobody else's step puts it off. */
  lemma StoppingEnds(s: Transport, action: Action)
    requires Inv(s) && s.controller.Stopping?
    ensures !s.worker.Exited? ==> TakeStep(s).Some? || FinishStep(s, Stopped([])).Some? || LeaveStep(s).Some? || SwapStep(s).Some? || ExitStep(s).Some?
    ensures Next(s, action).Some? ==>
      if action.Take? || action.Finish? || action.Leave? || action.Swap? || action.Exit?
      then Remaining(Next(s, action).value) < Remaining(s)
      else Remaining(Next(s, action).value) == Remaining(s)
    ensures s.worker.Exited? ==> JoinStep(s).Some?
  {
    hide Matches, Accounted, AnsweredOnce, CommitsIn;
    if InHand(s.worker) != [] {
      assert s.dequeued == s.completed + InHand(s.worker);
      assert s.pushed[|s.completed|] == InHand(s.worker)[0];
    }
  }
}
