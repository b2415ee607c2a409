/** What an answer does to the composition and to the bookkeeping (engine/src/host/engine.cpp:256-360), told segment by
    segment and without the functions that do it. */
module PredictionReplies {
  import opened Wrappers
  import opened Sequences
  import opened Compositions
  import opened CompositionRuns
  import opened Prediction
  import opened PredictionProtocol

  /** The answer is to the request that is in flight in this context. */
  predicate Heard(s: System, k: nat, reply: Reply) {
    && s.attached && k < |s.sent| && s.prediction.pending && s.prediction.generation == s.sent[k].generation
    && match reply
       case Predicted(session, request, revision, _) =>
         s.prediction.inflightRequestId == Some(request) && s.prediction.inflightRevision == revision && s.prediction.sessionId == session
       case Failed(request, _) =>
         s.prediction.inflightRequestId.None? || request == 0 || s.prediction.inflightRequestId == Some(request)
  }

  /** A prediction for the composition as it was when the request began. */
  predicate StillCurrent(s: System, reply: Reply) {
    && reply.Predicted? && |reply.candidates| == |s.prediction.segmentIndices|
    && s.prediction.key == RawComposition(s.buffer.segments) && s.prediction.revision == s.buffer.revision
  }

  /** Nothing but the listed segments differs. */
  ghost predicate OnlyListed(b: Composition, shown: Composition, indices: seq<nat>) {
    && |shown.segments| == |b.segments| && shown.caret == b.caret
    && forall i :: 0 <= i < |b.segments| && i !in indices ==> shown.segments[i] == b.segments[i]
  }

  /** Each listed segment has its own merged candidates. */
  ghost predicate ShowsPrediction(b: Composition, shown: Composition, indices: seq<nat>, candidates: seq<seq<Char>>, env: Env) {
    && OnlyListed(b, shown, indices) && |indices| == |candidates|
    && forall j :: 0 <= j < |indices| ==>
         indices[j] < |b.segments| &&
         shown.segments[indices[j]] == Refreshed(b.segments[indices[j]], env.merge(b.segments[indices[j]], candidates[j]))
  }

  /** The fallback's candidates for one segment, as `seen` has it; incomplete segments get none. */
  function WithFallback(segment: Segment, index: nat, seen: Composition, env: Env): Segment {
    if segment.Complete() && index < |env.fallback(seen)| then Refreshed(segment, env.fallback(seen)[index]) else segment
  }

  /** Each listed segment that is complete has its own fallback candidates; the fallback is asked for one segment
      after the other, so it sees those before. */
  ghost predicate ShowsFallback(b: Composition, shown: Composition, indices: seq<nat>, env: Env, seen: seq<Composition>) {
    && OnlyListed(b, shown, indices) && |seen| == |indices|
    && (forall j :: 0 <= j < |indices| ==> OnlyListed(b, seen[j], indices[..j]))
    && (forall j :: 0 <= j < |indices| && indices[j] < |b.segments| ==>
          shown.segments[indices[j]] == WithFallback(b.segments[indices[j]], indices[j], seen[j], env))
  }

  /** No request is pending any more. */
  ghost predicate Ended(p: PredictionValue, session: SessionId, n: PredictionValue) {
    && !n.pending && !n.dirty && n.inflightRequestId.None? && n.segmentIndices == [] && n.sessionId == session
    && n.nextRequestId == p.nextRequestId && n.generation == p.generation
  }

  /** A request for the complete segments of the buffer is pending: sent when a session is open, otherwise a session
      is asked for first. */
  ghost predicate Asked(s: System, session: SessionId, n: System) {
    var p, b := n.prediction, n.buffer;
    && p.pending && !p.dirty && p.sessionId == session && p.generation == s.prediction.generation
    && p.key == RawComposition(b.segments) && p.revision == b.revision
    && Ascending(p.segmentIndices) && (forall i: nat :: i in p.segmentIndices <==> i < |b.segments| && b.segments[i].Complete())
    && if session != 0 then
         && n.opens == s.opens && |n.sent| == |s.sent| + 1 && n.sent[..|s.sent|] == s.sent
         && IsRequest(n.sent[|s.sent|], n, s.prediction.nextRequestId)
         && p.inflightRequestId == Some(s.prediction.nextRequestId) && p.inflightRevision == b.revision
         && p.nextRequestId == s.prediction.nextRequestId + 1
       else
         n.sent == s.sent && n.opens == s.opens + [Open(s.incarnation, s.prediction.generation, false)]
  }

  /** The request describes the buffer. */
  ghost predicate IsRequest(r: Sent, n: System, id: nat) {
    && r.incarnation == n.incarnation && r.generation == n.prediction.generation && r.sessionId == n.prediction.sessionId
    && r.requestId == id && r.bufferRevision == n.buffer.revision == r.builtAt
    && r.segments == n.buffer.segments && |r.padding| == |n.prediction.segmentIndices|
    && forall j :: 0 <= j < |r.padding| && n.prediction.segmentIndices[j] < |r.segments| ==>
         Describes(r.padding[j], r.segments[n.prediction.segmentIndices[j]])
  }

  /** The entry names the reading, and the character when it was chosen. */
  predicate Describes(e: PaddingEntry, s: Segment) {
    && e.bopomofo == s.Reading()
    && (e.chosen <==> s.manuallyChosen && s.SelectedCandidate() != 0)
    && (e.chosen ==> e.chosenChar == s.SelectedCandidate())
  }

  ghost predicate NothingComplete(b: Composition) {
    forall i :: 0 <= i < |b.segments| ==> !b.segments[i].Complete()
  }

  /** The request of `s` has ended with the buffer `after`; a dirty one was asked again. */
  ghost predicate Concluded(s: System, session: SessionId, after: Composition, again: seq<Edit>, n: System) {
    && after.Valid() && n.attached == s.attached && n.incarnation == s.incarnation
    && if !s.prediction.dirty then
         n.buffer == after && n.sent == s.sent && n.opens == s.opens && Ended(s.prediction, session, n.prediction)
       else
         && n.buffer == EditAll(after, again)
         && if NothingComplete(n.buffer) then n.sent == s.sent && n.opens == s.opens && Ended(s.prediction, session, n.prediction)
            else Asked(s, session, n)
  }

  // ----- asking -----

  lemma {:induction false} CompletedEmpty(segments: seq<Segment>)
    ensures CompletedFrom(segments, 0) == [] <==> forall i :: 0 <= i < |segments| ==> !segments[i].Complete()
  {
    hide Segment.Complete;
    CompletedAscend(segments, 0);
    if CompletedFrom(segments, 0) != [] {
      assert CompletedFrom(segments, 0)[0] in CompletedFrom(segments, 0);
    }
  }

  lemma {:induction false} Listing(segments: seq<Segment>)
    ensures var indices := CompletedFrom(segments, 0);
      Ascending(indices) && forall i: nat :: i in indices <==> i < |segments| && segments[i].Complete()
  {
    hide Segment.Complete, CompletedFrom;
    CompletedAscend(segments, 0);
  }

  lemma {:induction false} PaddingDescribes(segments: seq<Segment>)
    ensures var padding, indices := PaddingOf(segments), CompletedFrom(segments, 0);
      && |padding| == |indices|
      && forall j :: 0 <= j < |padding| ==> indices[j] < |segments| && Describes(padding[j], segments[indices[j]])
  {
    hide PaddingOf, CompletedFrom;
    PaddingNamesIndices(segments, 0);
    Whole(segments);
  }

  /** Asking while nothing is pending. */
  lemma {:induction false} Requesting(s: System, pins: seq<Edit>)
    requires s.buffer.Valid() && !s.prediction.pending
    ensures var n := RequestPrediction(s, pins);
      && n.attached == s.attached && n.incarnation == s.incarnation && n.buffer == EditAll(s.buffer, pins)
      && n.accepted == s.accepted && n.owner == s.owner
      && if NothingComplete(n.buffer) then n.sent == s.sent && n.opens == s.opens && n.prediction == s.prediction
         else Asked(s, s.prediction.sessionId, n)
  {
    hide EditAll, RawComposition, CompletedFrom, PaddingOf, Describes, Segment.Complete, Ascending;
    var segments := EditAll(s.buffer, pins).segments;
    CompletedEmpty(segments);
    Listing(segments);
    PaddingDescribes(segments);
  }

  /** Asking while a request is pending only marks it. */
  lemma {:induction false} RequestingAgain(s: System, pins: seq<Edit>)
    requires s.buffer.Valid() && s.prediction.pending
    ensures RequestPrediction(s, pins) == s.(buffer := EditAll(s.buffer, pins), prediction := s.prediction.(dirty := true))
  {
  }

  lemma Finishing(s: System, session: SessionId, after: Composition, accepted: set<nat>, again: seq<Edit>)
    requires after.Valid()
    ensures Concluded(s, session, after, again,
                      Finish(s.(buffer := after, prediction := s.prediction.(sessionId := session), accepted := accepted), again))
  {
    hide RequestPrediction, Asked, EditAll, NothingComplete;
    var t := s.(buffer := after, prediction := Cleared(s.prediction.(sessionId := session)), accepted := accepted);
    if s.prediction.dirty {
      Requesting(t, again);
      SameAsking(t, s, session, RequestPrediction(t, again));
    }
  }

  lemma SameAsking(t: System, s: System, session: SessionId, n: System)
    requires t.sent == s.sent && t.opens == s.opens && t.incarnation == s.incarnation
    requires t.prediction.nextRequestId == s.prediction.nextRequestId && t.prediction.generation == s.prediction.generation
    ensures Asked(t, session, n) ==> Asked(s, session, n)
  {
    hide IsRequest, Ascending;
  }

  // ----- the composition -----

  lemma {:induction false} PredictionShown(b: Composition, indices: seq<nat>, candidates: seq<seq<Char>>, env: Env)
    requires |indices| == |candidates| && Ascending(indices) && forall j :: 0 <= j < |indices| ==> indices[j] < |b.segments|
    ensures ShowsPrediction(b, ApplyPrediction(b, indices, candidates, env), indices, candidates, env)
  {
    hide Refreshed, ApplyPrediction;
    ApplyEach(b, indices, candidates, env);
    PredictionKeepsCaret(b, indices, candidates, env);
  }

  lemma {:induction false} PredictionKeepsCaret(b: Composition, indices: seq<nat>, candidates: seq<seq<Char>>, env: Env)
    requires |indices| == |candidates|
    ensures ApplyPrediction(b, indices, candidates, env).caret == b.caret
    decreases |indices|
  {
    if indices != [] {
      var next := if indices[0] >= |b.segments| then b
                  else RefreshCandidates(b, indices[0], env.merge(b.segments[indices[0]], candidates[0])).0;
      PredictionKeepsCaret(next, indices[1..], candidates[1..], env);
    }
  }

  lemma {:induction false} FallbackOne(b: Composition, index: nat, env: Env)
    ensures var next := ApplyFallback(b, [index], env);
      && OnlyListed(b, next, [index])
      && (index < |b.segments| ==> next.segments[index] == WithFallback(b.segments[index], index, b, env))
  {
    hide Refreshed, RefreshCandidates;
    if index < |b.segments| && b.segments[index].Complete() && index < |env.fallback(b)| {
      RefreshOne(b, index, env.fallback(b)[index]);
      RefreshKeepsCaret(b, index, env.fallback(b)[index]);
    }
    assert [index][1..] == [];
  }

  lemma RefreshKeepsCaret(b: Composition, index: nat, candidates: seq<Char>)
    ensures RefreshCandidates(b, index, candidates).0.caret == b.caret
  {
  }

  lemma {:induction false} FallbackStep(b: Composition, indices: seq<nat>, env: Env)
    ensures indices == [] ==> ApplyFallback(b, indices, env) == b
    ensures indices != [] ==> ApplyFallback(b, indices, env) == ApplyFallback(ApplyFallback(b, [indices[0]], env), indices[1..], env)
  {
    if indices != [] {
      assert [indices[0]][1..] == [];
    }
  }

  lemma {:induction false} FallbackShown(b: Composition, indices: seq<nat>, env: Env) returns (seen: seq<Composition>)
    requires Ascending(indices)
    ensures ShowsFallback(b, ApplyFallback(b, indices, env), indices, env, seen)
    decreases |indices|
  {
    hide ApplyFallback, Refreshed, WithFallback;
    FallbackStep(b, indices, env);
    if indices == [] {
      seen := [];
    } else {
      var first, rest := indices[0], indices[1..];
      var next := ApplyFallback(b, [first], env);
      FallbackOne(b, first, env);
      var later := FallbackShown(next, rest, env);
      seen := [b] + later;
      SeenFirst(b, next, ApplyFallback(b, indices, env), indices, env, later);
    }
  }

  lemma SeenFirst(b: Composition, next: Composition, shown: Composition, indices: seq<nat>, env: Env, later: seq<Composition>)
    requires indices != [] && Ascending(indices) && OnlyListed(b, next, [indices[0]]) && ShowsFallback(next, shown, indices[1..], env, later)
    requires indices[0] < |b.segments| ==> next.segments[indices[0]] == WithFallback(b.segments[indices[0]], indices[0], b, env)
    ensures ShowsFallback(b, shown, indices, env, [b] + later)
  {
    hide WithFallback;
    var rest := indices[1..];
    assert indices[0] !in rest;
    forall j | 0 <= j < |indices| ensures OnlyListed(b, ([b] + later)[j], indices[..j]) {
      if j > 0 {
        assert OnlyListed(next, later[j - 1], rest[..j - 1]);
        assert indices[..j] == [indices[0]] + rest[..j - 1];
      }
    }
    forall j | 0 <= j < |indices| && indices[j] < |b.segments|
      ensures shown.segments[indices[j]] == WithFallback(b.segments[indices[j]], indices[j], ([b] + later)[j], env)
    {
      if j > 0 {
        assert rest[j - 1] == indices[j];
        assert indices[j] !in [indices[0]];
      }
    }
  }

  // ----- the answers to predictions -----

  /** What delivering an answer does: nothing unless it is heard; then the listed segments get the prediction's or the
      fallback's candidates, pins follow, and the request has ended or is asked again. */
  ghost predicate ReplyDoes(s: System, n: System, k: nat, reply: Reply, pins: seq<Edit>, again: seq<Edit>, env: Env,
                            shown: Composition, seen: seq<Composition>) {
    if !Heard(s, k, reply) then n == s
    else
      && (if StillCurrent(s, reply) then ShowsPrediction(s.buffer, shown, s.prediction.segmentIndices, reply.candidates, env)
          else ShowsFallback(s.buffer, shown, s.prediction.segmentIndices, env, seen))
      && shown.Valid()
      && Concluded(s, if reply.Failed? && reply.unknownSession then 0 else s.prediction.sessionId, EditAll(shown, pins), again, n)
  }

  lemma HeardIsAccepted(s: System, k: nat, reply: Reply)
    ensures Heard(s, k, reply) <==> PredictionProtocol.Accepts(s, k, reply)
    ensures Heard(s, k, reply) ==> (StillCurrent(s, reply) <==> Applies(s, k, reply))
  {
  }

  lemma CurrentListed(s: System, reply: Reply)
    requires Inv(s) && s.prediction.pending && StillCurrent(s, reply)
    ensures forall j :: 0 <= j < |s.prediction.segmentIndices| ==> s.prediction.segmentIndices[j] < |s.buffer.segments|
  {
    hide CompletedFrom;
    CompletedAscend(s.buffer.segments, 0);
  }

  lemma ReplyStep(s: System, k: nat, reply: Reply, pins: seq<Edit>, again: seq<Edit>, env: Env)
      returns (shown: Composition, seen: seq<Composition>)
    requires Inv(s) && Ascending(s.prediction.segmentIndices)
    ensures ReplyDoes(s, HandleReply(s, k, reply, pins, again, env), k, reply, pins, again, env, shown, seen)
  {
    hide EditAll, ApplyPrediction, ApplyFallback, Finish, StillCurrent, Heard, ShowsPrediction, ShowsFallback, Concluded, Applies,
      PredictionProtocol.Accepts, Follows, Ascending, Inv;
    shown, seen := s.buffer, [];
    HeardIsAccepted(s, k, reply);
    if Heard(s, k, reply) {
      InvValid(s, k, reply);
      var indices := s.prediction.segmentIndices;
      if StillCurrent(s, reply) {
        CurrentListed(s, reply);
        CurrentCount(s, reply);
        shown := ApplyPrediction(s.buffer, indices, reply.candidates, env);
        PredictionShown(s.buffer, indices, reply.candidates, env);
        ApplyFollows(s.buffer, indices, reply.candidates, env);
      } else {
        shown := ApplyFallback(s.buffer, indices, env);
        seen := FallbackShown(s.buffer, indices, env);
        FallbackFollows(s.buffer, indices, env);
      }
      FollowsValid(s.buffer, shown);
      EditAllFollows(shown, pins);
      FollowsValid(shown, EditAll(shown, pins));
      Finishing(s, if reply.Failed? && reply.unknownSession then 0 else s.prediction.sessionId, EditAll(shown, pins),
                if reply.Predicted? then s.accepted + {k} else s.accepted, again);
    }
  }

  lemma CurrentCount(s: System, reply: Reply)
    requires StillCurrent(s, reply)
    ensures reply.Predicted? && |reply.candidates| == |s.prediction.segmentIndices|
  {
  }

  lemma InvValid(s: System, k: nat, reply: Reply)
    requires Inv(s)
    ensures s.buffer.Valid() && (Heard(s, k, reply) ==> s.prediction.pending)
  {
  }

  lemma FollowsValid(b: Composition, c: Composition)
    requires Follows(b, c)
    ensures c.Valid() && c.caret <= |c.segments|
  {
  }

  // ----- the answers to opening a session -----

  /** The answer is for the request that is still waiting for a session. */
  predicate Awaited(s: System, k: nat) {
    k < |s.opens| && s.attached && s.prediction.pending && s.prediction.generation == s.opens[k].generation && s.prediction.sessionId == 0
  }

  ghost predicate OpenDoes(s: System, n: System, k: nat, granted: Option<SessionId>, pins: seq<Edit>, again: seq<Edit>, env: Env,
                           shown: Composition, seen: seq<Composition>) {
    && |n.opens| >= |s.opens| && k < |s.opens| && n.opens[k] == s.opens[k].(delivered := true)
    && if !Awaited(s, k) then n.buffer == s.buffer && n.prediction == s.prediction && n.sent == s.sent && n.attached == s.attached
       else if granted.Some? then
         && n.buffer == s.buffer && n.prediction.pending && n.prediction.sessionId == granted.value
         && n.prediction.dirty == s.prediction.dirty && n.prediction.segmentIndices == s.prediction.segmentIndices
         && n.prediction.key == s.prediction.key && n.prediction.revision == s.prediction.revision
         && n.prediction.inflightRequestId == Some(s.prediction.nextRequestId) && n.prediction.inflightRevision == s.prediction.revision
         && n.prediction.nextRequestId == s.prediction.nextRequestId + 1
         && n.sent == s.sent + [Sent(s.incarnation, s.prediction.generation, granted.value, s.prediction.nextRequestId,
                                     s.prediction.revision, PaddingOf(s.buffer.segments), s.buffer.segments, s.buffer.revision)]
       else
         && ShowsFallback(s.buffer, shown, s.prediction.segmentIndices, env, seen)
         && shown.Valid()
         && Concluded(s.(opens := s.opens[k := s.opens[k].(delivered := true)]), 0, EditAll(shown, pins), again, n)
  }

  lemma {:induction false} OpenStep(s: System, k: nat, granted: Option<SessionId>, pins: seq<Edit>, again: seq<Edit>, env: Env)
      returns (shown: Composition, seen: seq<Composition>)
    requires Inv(s) && Ascending(s.prediction.segmentIndices) && k < |s.opens| && (granted.Some? ==> granted.value != 0)
    ensures OpenDoes(s, HandleOpen(s, k, granted, pins, again, env), k, granted, pins, again, env, shown, seen)
  {
    hide EditAll, ApplyFallback, Finish, ShowsFallback, Concluded, Follows, Ascending, Inv, PaddingOf;
    shown, seen := s.buffer, [];
    if Awaited(s, k) && granted.None? {
      BufferValid(s);
      shown := ApplyFallback(s.buffer, s.prediction.segmentIndices, env);
      seen := FallbackShown(s.buffer, s.prediction.segmentIndices, env);
      FallbackFollows(s.buffer, s.prediction.segmentIndices, env);
      FollowsValid(s.buffer, shown);
      EditAllFollows(shown, pins);
      FollowsValid(shown, EditAll(shown, pins));
      var d := s.(opens := s.opens[k := s.opens[k].(delivered := true)]);
      Finishing(d, 0, EditAll(shown, pins), s.accepted, again);
      ConcludedOpens(d, EditAll(shown, pins), again, HandleOpen(s, k, granted, pins, again, env));
    }
  }

  lemma ConcludedOpens(s: System, after: Composition, again: seq<Edit>, n: System)
    requires Concluded(s, 0, after, again, n)
    ensures |s.opens| <= |n.opens| && n.opens[..|s.opens|] == s.opens
  {
    hide Ascending, IsRequest, EditAll;
  }

  lemma BufferValid(s: System)
    requires Inv(s)
    ensures s.buffer.Valid()
  {
  }

  // ----- every run -----

  lemma ClearedAscends()
    ensures Ascending([])
  {
  }

  lemma IndicesAscend(s: System, a: Action, env: Env)
    requires Inv(s) && Enabled(s, a) && Ascending(s.prediction.segmentIndices)
    ensures Ascending(Step(s, a, env).prediction.segmentIndices)
  {
    hide Inv, EditAll, ApplyPrediction, ApplyFallback, Edited, HandleReply, HandleOpen, RequestPrediction, ReplyDoes, OpenDoes;
    BufferValid(s);
    match a
    case Request(pins) => RequestAscends(s, pins);
    case DeliverOpen(k, granted, pins, again) =>
      var shown, seen := OpenStep(s, k, granted, pins, again, env);
      OpenAscends(s, HandleOpen(s, k, granted, pins, again, env), k, granted, pins, again, env, shown, seen);
    case DeliverReply(k, reply, pins, again) =>
      var shown, seen := ReplyStep(s, k, reply, pins, again, env);
      ReplyAscends(s, HandleReply(s, k, reply, pins, again, env), k, reply, pins, again, env, shown, seen);
    case _ => ClearedAscends();
  }

  lemma RequestAscends(s: System, pins: seq<Edit>)
    requires s.buffer.Valid() && Ascending(s.prediction.segmentIndices)
    ensures Ascending(RequestPrediction(s, pins).prediction.segmentIndices)
  {
    hide EditAll, RequestPrediction, IsRequest;
    if s.prediction.pending {
      RequestingAgain(s, pins);
    } else {
      Requesting(s, pins);
    }
  }

  lemma ConcludedAscends(s: System, session: SessionId, after: Composition, again: seq<Edit>, n: System)
    requires Concluded(s, session, after, again, n)
    ensures Ascending(n.prediction.segmentIndices)
  {
    hide EditAll, IsRequest;
  }

  lemma ReplyAscends(s: System, n: System, k: nat, reply: Reply, pins: seq<Edit>, again: seq<Edit>, env: Env,
                     shown: Composition, seen: seq<Composition>)
    requires ReplyDoes(s, n, k, reply, pins, again, env, shown, seen) && Ascending(s.prediction.segmentIndices)
    ensures Ascending(n.prediction.segmentIndices)
  {
    hide Concluded, ShowsPrediction, ShowsFallback, Ascending, Heard;
    if Heard(s, k, reply) {
      ConcludedAscends(s, if reply.Failed? && reply.unknownSession then 0 else s.prediction.sessionId, EditAll(shown, pins), again, n);
    }
  }

  lemma OpenAscends(s: System, n: System, k: nat, granted: Option<SessionId>, pins: seq<Edit>, again: seq<Edit>, env: Env,
                    shown: Composition, seen: seq<Composition>)
    requires OpenDoes(s, n, k, granted, pins, again, env, shown, seen) && Ascending(s.prediction.segmentIndices)
    ensures Ascending(n.prediction.segmentIndices)
  {
    hide Concluded, ShowsFallback, Ascending, PaddingOf;
    if Awaited(s, k) && granted.None? {
      ConcludedAscends(s.(opens := s.opens[k := s.opens[k].(delivered := true)]), 0, EditAll(shown, pins), again, n);
    }
  }

  lemma {:induction false} RunAscends(states: seq<System>, actions: seq<Action>, env: Env, i: nat)
    requires PredictionProtocol.IsRun(states, actions, env) && i < |states|
    ensures Inv(states[i]) && Ascending(states[i].prediction.segmentIndices)
  {
    hide Inv, Step, Ascending;
    RunKeeps(states, actions, env, i);
    if i == 0 {
      ClearedAscends();
    } else {
      RunAscends(states, actions, env, i - 1);
      IndicesAscend(states[i - 1], actions[i - 1], env);
    }
  }

  /** Over every run: a prediction for the composition as it still is refreshes each listed segment with its own merged
      candidates, any other answer to the request in flight gives the listed segments their fallback candidates,
      every other answer changes nothing; and the request has then ended, or is asked again when it was dirty. */
  lemma RepliesDo(states: seq<System>, actions: seq<Action>, env: Env, i: nat) returns (shown: Composition, seen: seq<Composition>)
    requires PredictionProtocol.IsRun(states, actions, env) && i < |actions| && actions[i].DeliverReply?
    ensures var a := actions[i];
      ReplyDoes(states[i], states[i + 1], a.request, a.reply, a.pins, a.again, env, shown, seen)
  {
    hide Inv, Ascending, ReplyDoes, HandleReply;
    RunAscends(states, actions, env, i);
    var a := actions[i];
    shown, seen := ReplyStep(states[i], a.request, a.reply, a.pins, a.again, env);
  }

  /** Over every run: a granted session sends the waiting request, a refused one gives the listed segments their
      fallback candidates; a late answer changes neither composition nor request. */
  lemma OpensDo(states: seq<System>, actions: seq<Action>, env: Env, i: nat) returns (shown: Composition, seen: seq<Composition>)
    requires PredictionProtocol.IsRun(states, actions, env) && i < |actions| && actions[i].DeliverOpen?
    ensures var a := actions[i];
      OpenDoes(states[i], states[i + 1], a.open, a.granted, a.pins, a.again, env, shown, seen)
  {
    hide Inv, Ascending, OpenDoes, HandleOpen;
    RunAscends(states, actions, env, i);
    var a := actions[i];
    shown, seen := OpenStep(states[i], a.open, a.granted, a.pins, a.again, env);
  }

  /** Over every run: a request to predict is begun for the pinned composition, or marks the pending one. */
  lemma RequestsDo(states: seq<System>, actions: seq<Action>, env: Env, i: nat)
    requires PredictionProtocol.IsRun(states, actions, env) && i < |actions| && actions[i].Request?
    ensures var s, n := states[i], states[i + 1];
      && n.buffer == EditAll(s.buffer, actions[i].pins)
      && if s.prediction.pending then n == s.(buffer := n.buffer, prediction := s.prediction.(dirty := true))
         else if NothingComplete(n.buffer) then n == s.(buffer := n.buffer)
         else Asked(s, s.prediction.sessionId, n)
  {
    hide Inv, EditAll, RequestPrediction, Asked, NothingComplete;
    RunKeeps(states, actions, env, i);
    BufferValid(states[i]);
    if states[i].prediction.pending {
      RequestingAgain(states[i], actions[i].pins);
    } else {
      Requesting(states[i], actions[i].pins);
      EditAllFollows(states[i].buffer, actions[i].pins);
      if NothingComplete(EditAll(states[i].buffer, actions[i].pins)) {
        NothingAsked(states[i], actions[i].pins);
      }
    }
  }

  lemma {:induction false} NothingAsked(s: System, pins: seq<Edit>)
    requires s.buffer.Valid() && !s.prediction.pending && NothingComplete(EditAll(s.buffer, pins))
    ensures RequestPrediction(s, pins) == s.(buffer := EditAll(s.buffer, pins))
  {
    hide EditAll, RawComposition, Segment.Complete;
    CompletedEmpty(EditAll(s.buffer, pins).segments);
  }
}
