/** The asynchronous prediction protocol of one input context (engine/src/host/engine.cpp), as a state machine:
    edits, commits, resets, restarts of the transport, detaching and attaching the context, and replies that
    arrive late, reordered or, for predictions, more than once.

    Open replies are delivered once each and carry an id the service never gave before; the buffer revision
    does not wrap around. */
module PredictionProtocol {
  import opened Wrappers
  import opened Sequences
  import opened Compositions
  import opened CompositionRuns
  import opened Prediction

  /** A request on its way, as the callback remembers it. `segments` is the composition it was built from and
      `builtAt` the revision of the buffer then; the engine sends the revision of `begin` instead. */
  datatype Sent = Sent(incarnation: nat, generation: nat, sessionId: SessionId, requestId: nat, bufferRevision: nat,
                       padding: seq<PaddingEntry>, segments: seq<Segment>, builtAt: nat)

  datatype Open = Open(incarnation: nat, generation: nat, delivered: bool)

  /** Everything around the model: how model candidates are merged into a segment's, and the candidates that the
      fallback gives a composition. */
  datatype Env = Env(merge: (Segment, seq<Char>) -> seq<Char>, fallback: Composition -> seq<seq<Char>>)

  datatype System = System(
    attached: bool,
    incarnation: nat,
    buffer: Composition,
    prediction: PredictionValue,
    sent: seq<Sent>,
    opens: seq<Open>,
    owner: map<SessionId, nat>,
    accepted: set<nat>)

  const INITIAL := System(false, 0, EMPTY, NO_PREDICTION, [], [], map[], {})

  /** The reading of a segment, and its character when the user or a phrase chose one. */
  function PaddingEntryOf(segment: Segment): PaddingEntry {
    var chosen := segment.manuallyChosen && segment.SelectedCandidate() != 0;
    PaddingEntry(chosen, segment.Reading(), if chosen then segment.SelectedCandidate() else 0)
  }

  /** One padding entry per complete segment, as build_predict_request writes them. */
  function PaddingOf(segments: seq<Segment>): seq<PaddingEntry> {
    if segments == [] then []
    else if !segments[0].Complete() then PaddingOf(segments[1..])
    else [PaddingEntryOf(segments[0])] + PaddingOf(segments[1..])
  }

  function EditAll(b: Composition, edits: seq<Edit>): (r: Composition)
    requires b.caret <= |b.segments|
    decreases |edits|
  {
    if edits == [] then b
    else
      var c := Edited(b, edits[0]);
      if c.caret > |c.segments| then c else EditAll(c, edits[1..])
  }

  // ----- the engine's methods -----

  function SendPrediction(s: System, generation: nat): System {
    var p := s.prediction;
    if p.generation != generation || !p.pending || !p.SessionOpen() then s
    else
      var request := Sent(s.incarnation, generation, p.sessionId, p.nextRequestId, p.revision,
                          PaddingOf(s.buffer.segments), s.buffer.segments, s.buffer.revision);
      s.(sent := s.sent + [request],
         prediction := p.(nextRequestId := p.nextRequestId + 1, inflightRequestId := Some(p.nextRequestId), inflightRevision := p.revision))
  }

  function RequestPrediction(s: System, pins: seq<Edit>): System
    requires s.buffer.caret <= |s.buffer.segments|
  {
    var pinned := s.(buffer := EditAll(s.buffer, pins));
    var completed := CompletedFrom(pinned.buffer.segments, 0);
    var begun := pinned.(prediction := Begun(s.prediction, completed, RawComposition(pinned.buffer.segments), pinned.buffer.revision));
    if !CanBegin(s.prediction, completed) then begun
    else if begun.prediction.SessionOpen() then SendPrediction(begun, begun.prediction.generation)
    else begun.(opens := begun.opens + [Open(s.incarnation, begun.prediction.generation, false)])
  }

  /** apply_prediction: each listed segment gets its own merged candidates. */
  function ApplyPrediction(b: Composition, indices: seq<nat>, candidates: seq<seq<Char>>, env: Env): Composition
    requires |indices| == |candidates|
    decreases |indices|
  {
    if indices == [] then b
    else
      var next := if indices[0] >= |b.segments| then b
                  else RefreshCandidates(b, indices[0], env.merge(b.segments[indices[0]], candidates[0])).0;
      ApplyPrediction(next, indices[1..], candidates[1..], env)
  }

  function ApplyFallback(b: Composition, indices: seq<nat>, env: Env): Composition
    decreases |indices|
  {
    if indices == [] then b
    else
      var index := indices[0];
      var next := if index < |b.segments| && b.segments[index].Complete() && index < |env.fallback(b)|
                  then RefreshCandidates(b, index, env.fallback(b)[index]).0 else b;
      ApplyFallback(next, indices[1..], env)
  }

  /** Ends the request in flight; asks again when the composition changed meanwhile. */
  function Finish(s: System, pins: seq<Edit>): System
    requires s.buffer.caret <= |s.buffer.segments|
  {
    var finished := s.(prediction := Cleared(s.prediction));
    if s.prediction.dirty then RequestPrediction(finished, pins) else finished
  }

  /** Whether a reply to request `k` reaches apply_prediction. */
  predicate Applies(s: System, k: nat, reply: Reply) {
    && k < |s.sent| && s.attached && reply.Predicted?
    && s.prediction.generation == s.sent[k].generation && s.prediction.pending
    && s.prediction.Correlates(reply)
    && s.prediction.MatchesComposition(reply.candidates, RawComposition(s.buffer.segments), s.buffer.revision)
  }

  predicate Accepts(s: System, k: nat, reply: Reply) {
    k < |s.sent| && s.attached && s.prediction.generation == s.sent[k].generation && s.prediction.pending && s.prediction.Correlates(reply)
  }

  function HandleReply(s: System, k: nat, reply: Reply, pins: seq<Edit>, again: seq<Edit>, env: Env): System
    requires s.buffer.Valid()
  {
    if !Accepts(s, k, reply) then s
    else
      var p := if reply.Failed? && reply.unknownSession then s.prediction.(sessionId := 0) else s.prediction;
      var updated := if Applies(s, k, reply) then ApplyPrediction(s.buffer, p.segmentIndices, reply.candidates, env)
                     else ApplyFallback(s.buffer, p.segmentIndices, env);
      if updated.caret > |updated.segments| then s
      else
        var pinned := EditAll(updated, pins);
        if pinned.caret > |pinned.segments| then s
        else
          Finish(s.(buffer := pinned, prediction := p, accepted := if reply.Predicted? then s.accepted + {k} else s.accepted), again)
  }

  function HandleOpen(s: System, k: nat, granted: Option<SessionId>, pins: seq<Edit>, again: seq<Edit>, env: Env): System
    requires s.buffer.Valid() && k < |s.opens|
  {
    var d := s.(opens := s.opens[k := s.opens[k].(delivered := true)]);
    var t := if granted.Some? then d.(owner := d.owner[granted.value := d.incarnation]) else d;
    if !t.attached || t.prediction.generation != s.opens[k].generation || !t.prediction.pending || t.prediction.SessionOpen() then t
    else if granted.Some? then SendPrediction(t.(prediction := t.prediction.(sessionId := granted.value)), s.opens[k].generation)
    else
      var updated := ApplyFallback(t.buffer, t.prediction.segmentIndices, env);
      if updated.caret > |updated.segments| then t
      else
        var pinned := EditAll(updated, pins);
        if pinned.caret > |pinned.segments| then t else Finish(t.(buffer := pinned), again)
  }

  // ----- steps and runs -----

  datatype Action =
    | Attach
    | Detach
    | EditBuffer(edit: Edit)
    | MarkDirty
    | Request(pins: seq<Edit>)
    | DropPending
    | Invalidate
    | CloseSession
    | DeliverOpen(open: nat, granted: Option<SessionId>, pins: seq<Edit>, again: seq<Edit>)
    | DeliverReply(request: nat, reply: Reply, pins: seq<Edit>, again: seq<Edit>)

  /** The transport only hands over a prediction that echoes the request (ServiceTransport::matches); an error
      may carry any request id. An open reply comes once, with an id no earlier one had. */
  predicate Enabled(s: System, a: Action) {
    match a
    case Attach => !s.attached
    case DeliverOpen(k, granted, _, _) =>
      k < |s.opens| && !s.opens[k].delivered && (granted.Some? ==> granted.value != 0 && granted.value !in s.owner)
    case DeliverReply(k, reply, _, _) =>
      k < |s.sent| && (reply.Predicted? ==> reply.sessionId == s.sent[k].sessionId && reply.requestId == s.sent[k].requestId &&
                                            reply.bufferRevision == s.sent[k].bufferRevision)
    case _ => s.attached
  }

  function Step(s: System, a: Action, env: Env): System
    requires s.buffer.Valid() && Enabled(s, a)
  {
    match a
    case Attach => s.(attached := true, incarnation := s.incarnation + 1, buffer := EMPTY, prediction := NO_PREDICTION)
    case Detach => s.(attached := false)
    case EditBuffer(edit) => s.(buffer := Edited(s.buffer, edit))
    case MarkDirty => s.(prediction := Dirtied(s.prediction))
    case Request(pins) => RequestPrediction(s, pins)
    case DropPending => s.(prediction := Cleared(s.prediction))
    case Invalidate => s.(prediction := Invalidated(s.prediction))
    case CloseSession => s.(prediction := s.prediction.(sessionId := 0))
    case DeliverOpen(k, granted, pins, again) => HandleOpen(s, k, granted, pins, again, env)
    case DeliverReply(k, reply, pins, again) => HandleReply(s, k, reply, pins, again, env)
  }

  // ----- the invariant -----

  /** What the bookkeeping of a pending request says about the buffer: its revision is not from the future,
      and while it is the buffer's own, key and segment indices are the buffer's own too. */
  ghost predicate PendingTrue(b: Composition, p: PredictionValue) {
    p.pending ==>
      && p.revision <= b.revision
      && (p.revision == b.revision ==> p.key == RawComposition(b.segments) && p.segmentIndices == CompletedFrom(b.segments, 0))
  }

  /** A request of this incarnation: built not later than now, and from the present segments if the revision
      has not moved since. */
  ghost predicate BuiltTrue(b: Composition, r: Sent) {
    && r.builtAt <= b.revision
    && (r.builtAt == b.revision ==> r.segments == b.segments)
    && r.bufferRevision <= r.builtAt
    && r.padding == PaddingOf(r.segments)
  }

  ghost predicate SentTrue(s: System) {
    && (forall k :: 0 <= k < |s.sent| ==> s.sent[k].incarnation <= s.incarnation && s.sent[k].sessionId != 0 &&
                                          s.sent[k].sessionId in s.owner && s.owner[s.sent[k].sessionId] == s.sent[k].incarnation)
    && (forall k :: 0 <= k < |s.sent| && s.sent[k].incarnation == s.incarnation ==>
          BuiltTrue(s.buffer, s.sent[k]) && s.sent[k].requestId < s.prediction.nextRequestId)
    && (forall j, k :: 0 <= j < k < |s.sent| && s.sent[j].incarnation == s.sent[k].incarnation ==>
          s.sent[j].requestId < s.sent[k].requestId)
  }

  /** The request in flight is one that was sent and not answered yet. */
  ghost predicate InflightTrue(s: System) {
    && (s.prediction.inflightRequestId.Some? ==> s.prediction.pending && s.prediction.inflightRevision == s.prediction.revision)
    && (s.prediction.sessionId != 0 ==> s.prediction.sessionId in s.owner && s.owner[s.prediction.sessionId] == s.incarnation)
    && (forall k :: k in s.accepted ==> k < |s.sent|)
    && (forall k :: k in s.accepted && s.sent[k].incarnation == s.incarnation ==>
          s.prediction.inflightRequestId != Some(s.sent[k].requestId))
  }

  ghost predicate Inv(s: System) {
    s.buffer.Valid() && PendingTrue(s.buffer, s.prediction) && SentTrue(s) && InflightTrue(s)
  }

  /** The buffer moved on: everything said about it stays true. */
  lemma BufferMoves(s: System, b: Composition)
    requires Inv(s) && Follows(s.buffer, b)
    ensures Inv(s.(buffer := b))
  {
  }

  lemma {:induction false} EditAllFollows(b: Composition, edits: seq<Edit>)
    requires b.Valid()
    ensures Follows(b, EditAll(b, edits))
    decreases |edits|
  {
    if edits != [] {
      EditFollows(b, edits[0]);
      EditAllFollows(Edited(b, edits[0]), edits[1..]);
    }
  }

  lemma {:induction false} ApplyFollows(b: Composition, indices: seq<nat>, candidates: seq<seq<Char>>, env: Env)
    requires b.Valid() && |indices| == |candidates|
    ensures Follows(b, ApplyPrediction(b, indices, candidates, env))
    decreases |indices|
  {
    if indices != [] {
      hide RefreshCandidates;
      var next := b;
      if indices[0] < |b.segments| {
        CandidatesFollow(b, indices[0], env.merge(b.segments[indices[0]], candidates[0]), true);
        next := RefreshCandidates(b, indices[0], env.merge(b.segments[indices[0]], candidates[0])).0;
      }
      ApplyFollows(next, indices[1..], candidates[1..], env);
    }
  }

  lemma {:induction false} FallbackFollows(b: Composition, indices: seq<nat>, env: Env)
    requires b.Valid()
    ensures Follows(b, ApplyFallback(b, indices, env))
    decreases |indices|
  {
    if indices != [] {
      hide RefreshCandidates;
      var index := indices[0];
      var next := b;
      if index < |b.segments| && b.segments[index].Complete() && index < |env.fallback(b)| {
        CandidatesFollow(b, index, env.fallback(b)[index], true);
        next := RefreshCandidates(b, index, env.fallback(b)[index]).0;
      }
      FallbackFollows(next, indices[1..], env);
    }
  }

  lemma SendKeeps(s: System, generation: nat)
    requires Inv(s)
    ensures Inv(SendPrediction(s, generation))
  {
    var t := SendPrediction(s, generation);
    if t != s {
      var r := t.sent[|s.sent|];
      assert BuiltTrue(s.buffer, r);
      assert t.sent == s.sent + [r];
    }
  }

  lemma RequestKeeps(s: System, pins: seq<Edit>)
    requires Inv(s)
    ensures Inv(RequestPrediction(s, pins))
  {
    hide SendPrediction, EditAll, SentTrue, InflightTrue, PendingTrue, Begun, CompletedFrom, RawComposition, Follows;
    EditAllFollows(s.buffer, pins);
    var pinned := s.(buffer := EditAll(s.buffer, pins));
    BufferMoves(s, pinned.buffer);
    var begun := Begun(s.prediction, CompletedFrom(pinned.buffer.segments, 0), RawComposition(pinned.buffer.segments), pinned.buffer.revision);
    BeginKeeps(pinned);
    SendKeeps(pinned.(prediction := begun), begun.generation);
    OpeningKeeps(pinned.(prediction := begun), Open(s.incarnation, begun.generation, false));
  }

  lemma OpeningKeeps(s: System, open: Open)
    requires Inv(s)
    ensures Inv(s.(opens := s.opens + [open]))
  {
  }

  lemma BeginKeeps(s: System)
    requires Inv(s)
    ensures var begun := Begun(s.prediction, CompletedFrom(s.buffer.segments, 0), RawComposition(s.buffer.segments), s.buffer.revision);
      Inv(s.(prediction := begun))
  {
  }

  lemma ClearKeeps(s: System, accepted: set<nat>)
    requires s.buffer.Valid() && SentTrue(s) && forall k :: k in accepted ==> k < |s.sent|
    requires s.prediction.sessionId != 0 ==> s.prediction.sessionId in s.owner && s.owner[s.prediction.sessionId] == s.incarnation
    ensures Inv(s.(prediction := Cleared(s.prediction), accepted := accepted))
  {
  }

  lemma FinishKeeps(s: System, accepted: set<nat>, pins: seq<Edit>)
    requires s.buffer.Valid() && SentTrue(s) && forall k :: k in accepted ==> k < |s.sent|
    requires s.prediction.sessionId != 0 ==> s.prediction.sessionId in s.owner && s.owner[s.prediction.sessionId] == s.incarnation
    ensures Inv(Finish(s.(accepted := accepted), pins))
  {
    hide RequestPrediction;
    ClearKeeps(s, accepted);
    var finished := s.(accepted := accepted, prediction := Cleared(s.prediction));
    RequestKeeps(finished, pins);
  }

  lemma ReplyKeeps(s: System, k: nat, reply: Reply, pins: seq<Edit>, again: seq<Edit>, env: Env)
    requires Inv(s)
    ensures Inv(HandleReply(s, k, reply, pins, again, env))
  {
    hide EditAll, ApplyPrediction, ApplyFallback, Finish;
    if Accepts(s, k, reply) {
      var p := if reply.Failed? && reply.unknownSession then s.prediction.(sessionId := 0) else s.prediction;
      var updated := if Applies(s, k, reply) then ApplyPrediction(s.buffer, p.segmentIndices, reply.candidates, env)
                     else ApplyFallback(s.buffer, p.segmentIndices, env);
      if Applies(s, k, reply) {
        ApplyFollows(s.buffer, p.segmentIndices, reply.candidates, env);
      } else {
        FallbackFollows(s.buffer, p.segmentIndices, env);
      }
      EditAllFollows(updated, pins);
      var pinned := EditAll(updated, pins);
      BufferMoves(s, pinned);
      FinishKeeps(s.(buffer := pinned, prediction := p), if reply.Predicted? then s.accepted + {k} else s.accepted, again);
    }
  }

  lemma GrantKeeps(s: System, k: nat, granted: Option<SessionId>)
    requires Inv(s) && k < |s.opens| && (granted.Some? ==> granted.value !in s.owner)
    ensures var d := s.(opens := s.opens[k := s.opens[k].(delivered := true)]);
      Inv(if granted.Some? then d.(owner := d.owner[granted.value := d.incarnation]) else d)
  {
  }

  lemma OpenKeeps(s: System, k: nat, granted: Option<SessionId>, pins: seq<Edit>, again: seq<Edit>, env: Env)
    requires Inv(s) && k < |s.opens| && (granted.Some? ==> granted.value != 0 && granted.value !in s.owner)
    ensures Inv(HandleOpen(s, k, granted, pins, again, env))
  {
    GrantKeeps(s, k, granted);
    var d := s.(opens := s.opens[k := s.opens[k].(delivered := true)]);
    var t := if granted.Some? then d.(owner := d.owner[granted.value := d.incarnation]) else d;
    hide EditAll, ApplyFallback, Finish, SendPrediction;
    if granted.Some? {
      if t.prediction.sessionId == 0 {
        AdoptKeeps(t, granted.value);
        SendKeeps(t.(prediction := t.prediction.(sessionId := granted.value)), s.opens[k].generation);
      }
    } else {
      FallbackFollows(t.buffer, t.prediction.segmentIndices, env);
      var updated := ApplyFallback(t.buffer, t.prediction.segmentIndices, env);
      EditAllFollows(updated, pins);
      BufferMoves(t, EditAll(updated, pins));
      FinishKeeps(t.(buffer := EditAll(updated, pins)), t.accepted, again);
    }
  }

  lemma AdoptKeeps(s: System, id: SessionId)
    requires Inv(s) && id in s.owner && s.owner[id] == s.incarnation
    ensures Inv(s.(prediction := s.prediction.(sessionId := id)))
  {
  }

  lemma AttachKeeps(s: System)
    requires Inv(s)
    ensures Inv(s.(attached := true, incarnation := s.incarnation + 1, buffer := EMPTY, prediction := NO_PREDICTION))
  {
  }

  /** The steps that send nothing and hear nothing. */
  lemma QuietKeeps(s: System, a: Action, env: Env)
    requires Inv(s) && Enabled(s, a)
    requires a.Attach? || a.Detach? || a.EditBuffer? || a.MarkDirty? || a.DropPending? || a.Invalidate? || a.CloseSession?
    ensures Inv(Step(s, a, env))
  {
    hide Edited, HandleReply, HandleOpen, RequestPrediction, Follows, PendingTrue, SentTrue, InflightTrue;
    match a
    case Attach => AttachKeeps(s);
    case EditBuffer(edit) =>
      EditFollows(s.buffer, edit);
      BufferMoves(s, Edited(s.buffer, edit));
    case DropPending => DropKeeps(s);
    case Invalidate => InvalidateKeeps(s);
    case Detach => DetachKeeps(s);
    case MarkDirty => DirtyKeeps(s);
    case CloseSession => SessionKeeps(s);
  }

  lemma DropKeeps(s: System)
    requires Inv(s)
    ensures Inv(s.(prediction := Cleared(s.prediction)))
  {
    ClearKeeps(s, s.accepted);
  }

  lemma InvalidateKeeps(s: System)
    requires Inv(s)
    ensures Inv(s.(prediction := Invalidated(s.prediction)))
  {
    ClearKeeps(s.(prediction := s.prediction.(generation := s.prediction.generation + 1)), s.accepted);
  }

  lemma DetachKeeps(s: System)
    requires Inv(s)
    ensures Inv(s.(attached := false))
  {
  }

  lemma DirtyKeeps(s: System)
    requires Inv(s)
    ensures Inv(s.(prediction := Dirtied(s.prediction)))
  {
  }

  lemma SessionKeeps(s: System)
    requires Inv(s)
    ensures Inv(s.(prediction := s.prediction.(sessionId := 0)))
  {
  }

  lemma StepKeeps(s: System, a: Action, env: Env)
    requires Inv(s) && Enabled(s, a)
    ensures Inv(Step(s, a, env))
  {
    hide Inv, Edited, HandleReply, HandleOpen, RequestPrediction;
    match a
    case Attach => QuietKeeps(s, a, env);
    case Detach => QuietKeeps(s, a, env);
    case EditBuffer(edit) => QuietKeeps(s, a, env);
    case MarkDirty => QuietKeeps(s, a, env);
    case Request(pins) => RequestKeeps(s, pins);
    case DropPending => QuietKeeps(s, a, env);
    case Invalidate => QuietKeeps(s, a, env);
    case CloseSession => QuietKeeps(s, a, env);
    case DeliverOpen(k, granted, pins, again) => OpenKeeps(s, k, granted, pins, again, env);
    case DeliverReply(k, reply, pins, again) => ReplyKeeps(s, k, reply, pins, again, env);
  }

  // ----- what every run promises -----

  ghost predicate IsRun(states: seq<System>, actions: seq<Action>, env: Env) {
    |states| == |actions| + 1 && states[0] == INITIAL &&
    forall i :: 0 <= i < |actions| ==>
      states[i].buffer.Valid() && Enabled(states[i], actions[i]) && states[i + 1] == Step(states[i], actions[i], env)
  }

  lemma {:induction false} RunKeeps(states: seq<System>, actions: seq<Action>, env: Env, i: nat)
    requires IsRun(states, actions, env) && i < |states|
    ensures Inv(states[i])
  {
    if i > 0 {
      RunKeeps(states, actions, env, i - 1);
      StepKeeps(states[i - 1], actions[i - 1], env);
    }
  }

  /** The request was built from exactly the present segments, and lists exactly the complete ones. */
  ghost predicate Fresh(s: System, k: nat, reply: Reply) {
    k < |s.sent| && reply.Predicted? &&
    s.sent[k].incarnation == s.incarnation && s.sent[k].segments == s.buffer.segments &&
    s.sent[k].padding == PaddingOf(s.buffer.segments) && |s.sent[k].padding| == |reply.candidates| &&
    s.prediction.segmentIndices == CompletedFrom(s.buffer.segments, 0) &&
    |reply.candidates| == |s.prediction.segmentIndices|
  }

  lemma AppliedIsFresh(s: System, k: nat, reply: Reply)
    requires Inv(s) && Enabled(s, DeliverReply(k, reply, [], [])) && Applies(s, k, reply)
    ensures Fresh(s, k, reply) && k !in s.accepted
  {
    assert s.sent[k].sessionId in s.owner && s.owner[s.sent[k].sessionId] == s.sent[k].incarnation;
    assert s.sent[k].incarnation == s.incarnation;
    assert BuiltTrue(s.buffer, s.sent[k]);
    PaddingNamesIndices(s.buffer.segments, 0);
    Whole(s.buffer.segments);
  }

  /** Over every run: whenever a prediction is applied, the request was built from exactly the composition it is
      applied to, and no reply to that request was accepted before. */
  lemma PredictionIsFresh(states: seq<System>, actions: seq<Action>, env: Env, i: nat)
    requires IsRun(states, actions, env) && i < |actions| && actions[i].DeliverReply?
    requires Applies(states[i], actions[i].request, actions[i].reply)
    ensures Fresh(states[i], actions[i].request, actions[i].reply)
    ensures actions[i].request !in states[i].accepted && actions[i].request in states[i + 1].accepted
  {
    RunKeeps(states, actions, env, i);
    var k, reply := actions[i].request, actions[i].reply;
    AppliedIsFresh(states[i], k, reply);
    AcceptedIsRecorded(states[i], k, reply, actions[i].pins, actions[i].again, env);
  }

  lemma FinishAccepted(s: System, pins: seq<Edit>)
    requires s.buffer.caret <= |s.buffer.segments|
    ensures Finish(s, pins).accepted == s.accepted
  {
  }

  lemma AcceptedIsRecorded(s: System, k: nat, reply: Reply, pins: seq<Edit>, again: seq<Edit>, env: Env)
    requires Inv(s) && Applies(s, k, reply)
    ensures k in HandleReply(s, k, reply, pins, again, env).accepted
  {
    hide EditAll, ApplyPrediction, Finish;
    ApplyFollows(s.buffer, s.prediction.segmentIndices, reply.candidates, env);
    var updated := ApplyPrediction(s.buffer, s.prediction.segmentIndices, reply.candidates, env);
    EditAllFollows(updated, pins);
    FinishAccepted(s.(buffer := EditAll(updated, pins), accepted := s.accepted + {k}), again);
  }

  // ----- what applying does -----

  /** The segment of one index after its candidates are refreshed: an explicit choice keeps everything, a pinned
      phrase keeps its character in front. */
  function Refreshed(segment: Segment, candidates: seq<Char>): Segment {
    if segment.phraseOverrideChosen then RefreshedSegment(segment, candidates)
    else if segment.manuallyChosen then segment
    else segment.(candidates := candidates, selectedIndex := 0)
  }

  ghost predicate Ascending(indices: seq<nat>) {
    forall i, j :: 0 <= i < j < |indices| ==> indices[i] < indices[j]
  }

  lemma {:induction false} CompletedAscend(segments: seq<Segment>, from: nat)
    requires from <= |segments|
    ensures var indices := CompletedFrom(segments, from);
      && Ascending(indices)
      && (forall j :: 0 <= j < |indices| ==> from <= indices[j] < |segments| && segments[indices[j]].Complete())
      && (forall i :: from <= i < |segments| && segments[i].Complete() ==> i in indices)
    decreases |segments| - from
  {
    hide CompletedFrom;
    CompletedStep(segments, from);
    if from < |segments| {
      CompletedAscend(segments, from + 1);
    }
  }

  lemma CompletedStep(segments: seq<Segment>, from: nat)
    requires from <= |segments|
    ensures CompletedFrom(segments, from) ==
      if from == |segments| then []
      else if segments[from].Complete() then [from] + CompletedFrom(segments, from + 1)
      else CompletedFrom(segments, from + 1)
  {
  }

  /** Entry `j` of the padding describes the segment that index `j` names. */
  lemma {:induction false} PaddingNamesIndices(segments: seq<Segment>, from: nat)
    requires from <= |segments|
    ensures var padding, indices := PaddingOf(segments[from..]), CompletedFrom(segments, from);
      && |padding| == |indices|
      && forall j :: 0 <= j < |indices| ==> indices[j] < |segments| && padding[j] == PaddingEntryOf(segments[indices[j]])
    decreases |segments| - from
  {
    hide PaddingEntryOf;
    if from < |segments| {
      PaddingNamesIndices(segments, from + 1);
      PushOne(segments, from);
    } else {
      Whole(segments);
    }
  }

  lemma RefreshOne(b: Composition, index: nat, candidates: seq<Char>)
    requires index < |b.segments|
    ensures RefreshCandidates(b, index, candidates).0.segments == b.segments[index := Refreshed(b.segments[index], candidates)]
  {
    assert b.segments[index := b.segments[index]] == b.segments;
  }

  /** Every listed segment gets exactly its own candidates, and no other segment changes. */
  lemma {:induction false} ApplyEach(b: Composition, indices: seq<nat>, candidates: seq<seq<Char>>, env: Env)
    requires |indices| == |candidates| && Ascending(indices) && forall j :: 0 <= j < |indices| ==> indices[j] < |b.segments|
    ensures var r := ApplyPrediction(b, indices, candidates, env);
      && |r.segments| == |b.segments|
      && (forall j :: 0 <= j < |indices| ==>
            r.segments[indices[j]] == Refreshed(b.segments[indices[j]], env.merge(b.segments[indices[j]], candidates[j])))
      && (forall i :: 0 <= i < |b.segments| && i !in indices ==> r.segments[i] == b.segments[i])
    decreases |indices|
  {
    hide RefreshCandidates, Refreshed;
    if indices != [] {
      var merged := env.merge(b.segments[indices[0]], candidates[0]);
      RefreshOne(b, indices[0], merged);
      var next := RefreshCandidates(b, indices[0], merged).0;
      ApplyEach(next, indices[1..], candidates[1..], env);
      assert indices[0] !in indices[1..];
    }
  }
}
