/** What callers of the service transport are told (engine/src/engine/service_transport.cpp:223-310). */
module TransportAnswers {
  import opened Wrappers
  import opened Sequences
  import Utf
  import opened Messages
  import opened ServiceTransport

  /** The service's answer to the request: its error, or the response to that message with the same ids. */
  predicate Echoes(request: Message, response: Message) {
    response.Error? ||
    match request
    case OpenSessionRequest => response.OpenSessionResponse?
    case PredictRequest(session, id, revision, _, _) =>
      response.Prediction? && response.sessionId == session && response.requestId == id && response.bufferRevision == revision
    case CloseSessionRequest(session) => response.CloseSessionResponse? && response.sessionId == session
    case StatusRequest(_) => response.StatusResponse?
    case ShutdownRequest => response.ShutdownResponse?
    case RecordCommitRequest(commit) => response.RecordCommitResponse? && response.eventId == commit.eventId
    case DiscardCommitRequest(event) => response.DiscardCommitResponse? && response.eventId == event
    case _ => false
  }

  /** An error that names the request as far as errors do. */
  predicate Refusal(request: Message, answer: Message, code: nat) {
    && answer.Error? && answer.code == code
    && answer.sessionId == (if request.PredictRequest? || request.CloseSessionRequest? then request.sessionId else NO_ID)
    && answer.requestId == (if request.PredictRequest? then request.requestId else 0)
    && answer.bufferRevision == (if request.PredictRequest? then request.bufferRevision else 0)
  }

  /** What the exchange tells the caller: the service's own answer unchanged, or why there is none. */
  predicate AnswerTo(request: Message, outcome: Outcome, answer: Message) {
    match outcome
    case Reply(response) => if Echoes(request, response) then answer == response else Refusal(request, answer, 3)
    case Stopped(text) => Refusal(request, answer, 9) && answer.message == text
    case BadFrame(text) => Refusal(request, answer, 3) && answer.message == text
    case Failed(text) => Refusal(request, answer, 8) && answer.message == text
  }

  /** The callback of the request is called with `answer`, if it has one; nobody else's is. */
  predicate Tells(s: Transport, n: Transport, id: nat) {
    && id < |s.issued| && n.issued == s.issued
    && if s.issued[id].callback then |n.answers| == |s.answers| + 1 && n.answers[..|s.answers|] == s.answers && n.answers[|s.answers|].id == id
       else n.answers == s.answers
  }

  /** Where an answer came from. */
  ghost predicate Origin(s: Transport, action: Action, answer: Answer) {
    && answer.id < |s.issued|
    && match action
       case Finish(outcome) => s.worker == Holding(answer.id) && AnswerTo(s.issued[answer.id].message, outcome, answer.message)
       case Reject(id, text) => id == answer.id && id in s.rejecting && Refusal(s.issued[id].message, answer.message, 9)
       case FailNext(text) =>
         s.worker.Draining? && s.worker.rest != [] && s.worker.rest[0] == answer.id && Refusal(s.issued[answer.id].message, answer.message, 9)
       case _ => false
  }

  ghost predicate AllFit(s: Transport) {
    forall id :: 0 <= id < |s.issued| ==> Fits(s.issued[id].kind, s.issued[id].message)
  }

  lemma FinishTells(s: Transport, outcome: Outcome, n: Transport)
    requires AllFit(s) && Next(s, Finish(outcome)) == Some(n)
    ensures s.worker.Holding? && Tells(s, n, s.worker.id) && n.worker.Waiting? && n.queue == s.queue
    ensures s.issued[s.worker.id].callback ==> AnswerTo(s.issued[s.worker.id].message, outcome, n.answers[|s.answers|].message)
  {
  }

  lemma RejectTells(s: Transport, id: nat, text: seq<Utf.Byte>, n: Transport)
    requires Next(s, Reject(id, text)) == Some(n)
    ensures id in s.rejecting && Tells(s, n, id)
    ensures s.issued[id].callback ==>
      Refusal(s.issued[id].message, n.answers[|s.answers|].message, 9) && n.answers[|s.answers|].message.message == text
  {
  }

  /** One step: what was issued stays, an answer is added where one is due, and says what it has to. */
  lemma StepTells(s: Transport, action: Action, n: Transport)
    requires AllFit(s) && Next(s, action) == Some(n)
    ensures AllFit(n) && s.issued <= n.issued && s.answers <= n.answers && |n.answers| <= |s.answers| + 1
    ensures |n.answers| > |s.answers| ==> Origin(s, action, n.answers[|s.answers|])
  {
    match action
    case Finish(outcome) => FinishTells(s, outcome, n);
    case Reject(id, text) => RejectTells(s, id, text, n);
    case _ =>
  }

  lemma {:induction false} AllRequestsFit(states: seq<Transport>, actions: seq<Action>, i: nat)
    requires IsRun(states, actions) && i < |states|
    ensures AllFit(states[i])
  {
    hide Next, AllFit;
    if i == 0 {
      NothingIssued();
    } else {
      AllRequestsFit(states, actions, i - 1);
      assert Next(states[i - 1], actions[i - 1]) == Some(states[i - 1 + 1]);
      StepTells(states[i - 1], actions[i - 1], states[i]);
    }
  }

  lemma NothingIssued()
    ensures AllFit(STARTED)
  {
  }

  /** Over every run: each answer a caller got is the service's own answer to its request, unchanged, or an error with
      the request's ids that says what went wrong. */
  lemma {:induction false} AnswersAreTrue(states: seq<Transport>, actions: seq<Action>, i: nat, q: nat) returns (m: nat)
    requires IsRun(states, actions) && i < |states| && q < |states[i].answers|
    ensures m < i && m < |actions| && Origin(states[m], actions[m], states[i].answers[q])
    decreases i
  {
    hide Next, AllFit, Origin;
    if i == 0 {
      assert false;
    } else {
      AllRequestsFit(states, actions, i - 1);
      assert Next(states[i - 1], actions[i - 1]) == Some(states[i - 1 + 1]);
      StepTells(states[i - 1], actions[i - 1], states[i]);
      if q < |states[i - 1].answers| {
        m := AnswersAreTrue(states, actions, i - 1, q);
      } else {
        m := i - 1;
      }
    }
  }

  /** A call is queued behind the others unless the transport is stopping, or it is a commit and 128 calls wait; then it
      is refused when somebody waits for it, and given up otherwise. */
  lemma EnqueueTakesOn(s: Transport, request: Request, n: Transport)
    requires Next(s, Enqueue(request)) == Some(n)
    ensures var id := |s.issued|;
      && n.issued == s.issued + [request] && n.answers == s.answers && n.worker == s.worker && n.stopping == s.stopping
      && if s.stopping || (request.message.RecordCommitRequest? && |s.queue| >= 128) then
           && n.queue == s.queue
           && if request.callback then n.rejecting == s.rejecting + {id} && n.dropped == s.dropped
              else n.dropped == s.dropped + {id} && n.rejecting == s.rejecting
         else n.queue == s.queue + [id] && n.rejecting == s.rejecting && n.dropped == s.dropped
  {
  }

  /** While calls wait and the worker is free, it takes the oldest one, also when the transport is stopping. */
  lemma TakeIsOldest(s: Transport)
    ensures s.worker.Waiting? && s.queue != [] <==> Next(s, Take).Some?
    ensures Next(s, Take).Some? ==>
      var n := Next(s, Take).value;
      n.worker == Holding(s.queue[0]) && n.queue == s.queue[1..] && n.answers == s.answers && n.issued == s.issued
  {
  }
}
