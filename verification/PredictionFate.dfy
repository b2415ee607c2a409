/** What becomes of a pending request over a run (engine/src/host/engine.cpp, engine/src/input/prediction_state.hpp). */
module PredictionFate {
  import opened Wrappers
  import opened Compositions
  import opened CompositionRuns
  import opened Prediction
  import opened PredictionProtocol
  import opened PredictionReplies

  /** A request for the complete segments of the composition as it now is. */
  ghost predicate RequestedNow(s: System) {
    && s.prediction.pending && !s.prediction.dirty
    && s.prediction.key == RawComposition(s.buffer.segments) && s.prediction.revision == s.buffer.revision
  }

  // ----- marks -----

  /** The steps that only touch the bookkeeping. */
  lemma QuietStepsDo(s: System, a: Action, env: Env)
    requires s.buffer.Valid() && Enabled(s, a)
    ensures var n := Step(s, a, env);
      && (a.MarkDirty? ==> n == s.(prediction := n.prediction) && n.prediction == s.prediction.(dirty := s.prediction.dirty || s.prediction.pending))
      && (a.DropPending? ==> n == s.(prediction := n.prediction) && Ended(s.prediction, s.prediction.sessionId, n.prediction))
      && (a.Invalidate? ==> n == s.(prediction := n.prediction) && !n.prediction.pending && n.prediction.generation > s.prediction.generation)
      && (a.CloseSession? ==> n == s.(prediction := s.prediction.(sessionId := 0)))
      && (a.Detach? ==> n == s.(attached := false))
      && (a.Attach? ==> n.attached && n.incarnation > s.incarnation && n.buffer == EMPTY && !n.prediction.pending &&
                        n.prediction.sessionId == 0 && n.sent == s.sent && n.opens == s.opens)
  {
  }

  // ----- a mark is never lost -----

  lemma ConcludedAsks(s: System, session: SessionId, after: Composition, again: seq<Edit>, n: System)
    requires Concluded(s, session, after, again, n) && s.prediction.dirty
    ensures RequestedNow(n) || NothingComplete(n.buffer)
  {
    hide IsRequest, Ascending, EditAll, RawComposition;
  }

  lemma DirtyStep(s: System, a: Action, env: Env)
    requires Inv(s) && Ascending(s.prediction.segmentIndices) && Enabled(s, a) && s.prediction.pending && s.prediction.dirty
    requires !a.Attach? && !a.DropPending? && !a.Invalidate?
    ensures var n := Step(s, a, env);
      (n.prediction.pending && n.prediction.dirty) || RequestedNow(n) || NothingComplete(n.buffer)
  {
    hide Inv, HandleReply, HandleOpen, RequestPrediction, Edited, Ascending, EditAll, RequestedNow, NothingComplete,
      ShowsPrediction, ShowsFallback, Concluded, Heard, PaddingOf;
    BufferValid(s);
    match a
    case Request(pins) => RequestingAgain(s, pins);
    case DeliverReply(k, reply, pins, again) =>
      var shown, seen := ReplyStep(s, k, reply, pins, again, env);
      if Heard(s, k, reply) {
        ConcludedAsks(s, if reply.Failed? && reply.unknownSession then 0 else s.prediction.sessionId, EditAll(shown, pins), again,
                      HandleReply(s, k, reply, pins, again, env));
      }
    case DeliverOpen(k, granted, pins, again) =>
      var shown, seen := OpenStep(s, k, granted, pins, again, env);
      if Awaited(s, k) && granted.None? {
        ConcludedAsks(s.(opens := s.opens[k := s.opens[k].(delivered := true)]), 0, EditAll(shown, pins), again,
                      HandleOpen(s, k, granted, pins, again, env));
      }
    case _ =>
  }

  /** Over every run: a request that was marked stays marked until it is dropped, or until its answer leaves a request
      for the composition as it then is, or a composition without a complete segment. */
  lemma {:induction false} MarkIsNotLost(states: seq<System>, actions: seq<Action>, env: Env, i: nat, j: nat) returns (m: nat)
    requires PredictionProtocol.IsRun(states, actions, env) && i <= j < |states|
    requires states[i].prediction.pending && states[i].prediction.dirty
    requires forall k :: i <= k < j ==> !actions[k].Attach? && !actions[k].DropPending? && !actions[k].Invalidate?
    ensures i <= m <= j
    ensures (m == j && states[j].prediction.pending && states[j].prediction.dirty) || RequestedNow(states[m]) || NothingComplete(states[m].buffer)
    decreases j - i
  {
    hide Step, Inv, RequestedNow, NothingComplete, Ascending;
    m := i;
    if i < j {
      RunAscends(states, actions, env, i);
      DirtyStep(states[i], actions[i], env);
      m := i + 1;
      if states[i + 1].prediction.pending && states[i + 1].prediction.dirty {
        m := MarkIsNotLost(states, actions, env, i + 1, j);
      }
    }
  }

  // ----- an invalidated request is deaf -----

  /** Requests of this incarnation are of the present generation or an earlier one. */
  ghost predicate Generations(s: System) {
    && (forall k :: 0 <= k < |s.sent| ==> s.sent[k].incarnation <= s.incarnation)
    && (forall k :: 0 <= k < |s.sent| && s.sent[k].incarnation == s.incarnation ==> s.sent[k].generation <= s.prediction.generation)
  }

  /** The history of requests grows by requests of the present generation only. */
  ghost predicate Later(s: System, n: System) {
    && s.incarnation <= n.incarnation && |s.sent| <= |n.sent| && n.sent[..|s.sent|] == s.sent
    && (n.incarnation == s.incarnation ==> s.prediction.generation <= n.prediction.generation)
    && forall k :: |s.sent| <= k < |n.sent| ==> n.sent[k].incarnation == n.incarnation && n.sent[k].generation == n.prediction.generation
  }

  lemma ConcludedIsLater(s: System, session: SessionId, after: Composition, again: seq<Edit>, n: System)
    requires Concluded(s, session, after, again, n)
    ensures Later(s, n) && n.incarnation == s.incarnation
  {
    hide Ascending, EditAll, RawComposition, Describes;
  }

  lemma StepIsLater(s: System, a: Action, env: Env)
    requires Inv(s) && Ascending(s.prediction.segmentIndices) && Enabled(s, a)
    ensures Later(s, Step(s, a, env))
  {
    hide Inv, HandleReply, HandleOpen, RequestPrediction, Edited, Ascending, EditAll, NothingComplete, Describes, RawComposition,
      ShowsPrediction, ShowsFallback, Concluded, Heard, PaddingOf;
    BufferValid(s);
    match a
    case Request(pins) =>
      if s.prediction.pending {
        RequestingAgain(s, pins);
      } else {
        Requesting(s, pins);
      }
    case DeliverReply(k, reply, pins, again) =>
      var shown, seen := ReplyStep(s, k, reply, pins, again, env);
      if Heard(s, k, reply) {
        ConcludedIsLater(s, if reply.Failed? && reply.unknownSession then 0 else s.prediction.sessionId, EditAll(shown, pins), again,
                         HandleReply(s, k, reply, pins, again, env));
      }
    case DeliverOpen(k, granted, pins, again) => OpenIsLater(s, k, granted, pins, again, env);
    case _ =>
  }

  lemma OpenIsLater(s: System, k: nat, granted: Option<SessionId>, pins: seq<Edit>, again: seq<Edit>, env: Env)
    requires Inv(s) && Ascending(s.prediction.segmentIndices) && k < |s.opens| && (granted.Some? ==> granted.value != 0)
    ensures Later(s, HandleOpen(s, k, granted, pins, again, env))
  {
    hide EditAll, Concluded, ShowsFallback, Inv, Ascending, Finish, ApplyFallback;
    BufferValid(s);
    var shown, seen := OpenStep(s, k, granted, pins, again, env);
    var n := HandleOpen(s, k, granted, pins, again, env);
    if Awaited(s, k) && granted.None? {
      var d := s.(opens := s.opens[k := s.opens[k].(delivered := true)]);
      ConcludedIsLater(d, 0, EditAll(shown, pins), again, n);
    }
  }

  lemma LaterKeeps(s: System, n: System)
    requires Generations(s) && Later(s, n)
    ensures Generations(n)
  {
    forall k | 0 <= k < |n.sent| && k < |s.sent| ensures n.sent[k] == s.sent[k] {
      assert n.sent[..|s.sent|][k] == s.sent[k];
    }
  }

  lemma LaterTwice(a: System, b: System, c: System)
    requires Later(a, b) && Later(b, c)
    ensures a.incarnation <= c.incarnation && |a.sent| <= |c.sent| && c.sent[..|a.sent|] == a.sent
    ensures c.incarnation == a.incarnation ==> a.prediction.generation <= c.prediction.generation
  {
    assert c.sent[..|a.sent|] == c.sent[..|b.sent|][..|a.sent|];
  }

  lemma {:induction false} RunIsLater(states: seq<System>, actions: seq<Action>, env: Env, i: nat, j: nat)
    requires PredictionProtocol.IsRun(states, actions, env) && i <= j < |states|
    ensures Generations(states[i])
    ensures states[i].incarnation <= states[j].incarnation && |states[i].sent| <= |states[j].sent| && states[j].sent[..|states[i].sent|] == states[i].sent
    ensures states[j].incarnation == states[i].incarnation ==> states[i].prediction.generation <= states[j].prediction.generation
    decreases j + i
  {
    hide Step, Inv, Ascending;
    if i < j {
      RunIsLater(states, actions, env, i, j - 1);
      RunAscends(states, actions, env, j - 1);
      StepIsLater(states[j - 1], actions[j - 1], env);
      assert states[j].sent[..|states[i].sent|] == states[j].sent[..|states[j - 1].sent|][..|states[i].sent|];
    } else if i > 0 {
      RunIsLater(states, actions, env, i - 1, i - 1);
      RunAscends(states, actions, env, i - 1);
      StepIsLater(states[i - 1], actions[i - 1], env);
      LaterKeeps(states[i - 1], states[i]);
    }
  }

  /** Over every run: once the context is invalidated, no answer to an earlier request of this context is heard. */
  lemma InvalidatedIsDeaf(states: seq<System>, actions: seq<Action>, env: Env, i: nat, j: nat, k: nat, reply: Reply)
    requires PredictionProtocol.IsRun(states, actions, env) && i < j < |states| && actions[i].Invalidate?
    requires k < |states[i].sent| && states[i].sent[k].incarnation == states[j].incarnation
    ensures !Heard(states[j], k, reply)
  {
    hide Inv, Step;
    RunIsLater(states, actions, env, i, i);
    RunIsLater(states, actions, env, i, i + 1);
    RunIsLater(states, actions, env, i, j);
    RunIsLater(states, actions, env, i + 1, j);
    RunKeeps(states, actions, env, i);
    BufferValid(states[i]);
    QuietStepsDo(states[i], actions[i], env);
    assert states[j].sent[..|states[i].sent|][k] == states[i].sent[k];
  }
}
