/** Bookkeeping of one asynchronous prediction (engine/src/input/prediction_state.hpp). */
module Prediction {
  import opened Wrappers
  import opened Compositions

  /** A service session; 0 stands for the all-zero id of a session that is not open. */
  type SessionId = nat

  datatype PaddingEntry = PaddingEntry(chosen: bool, bopomofo: Text, chosenChar: Char)

  datatype Reply =
    | Predicted(sessionId: SessionId, requestId: nat, bufferRevision: nat, candidates: seq<seq<Char>>)
    | Failed(requestId: nat, unknownSession: bool)

  datatype PredictionValue = PredictionValue(
    sessionId: SessionId,
    nextRequestId: nat,
    generation: nat,
    inflightRequestId: Option<nat>,
    inflightRevision: nat,
    key: Text,
    revision: nat,
    segmentIndices: seq<nat>,
    pending: bool,
    dirty: bool)
  {
    predicate SessionOpen() {
      sessionId != 0
    }

    predicate Correlates(reply: Reply) {
      match reply
      case Predicted(session, request, revision, _) =>
        inflightRequestId == Some(request) && inflightRevision == revision && session == sessionId
      case Failed(request, _) =>
        inflightRequestId.None? || request == 0 || request == inflightRequestId.value
    }

    predicate MatchesComposition(candidates: seq<seq<Char>>, raw: Text, bufferRevision: nat) {
      |candidates| == |segmentIndices| && key == raw && revision == bufferRevision
    }
  }

  const NO_PREDICTION := PredictionValue(0, 1, 0, None, 0, [], 0, [], false, false)

  function Cleared(p: PredictionValue): PredictionValue {
    p.(pending := false, dirty := false, inflightRequestId := None, inflightRevision := 0, segmentIndices := [])
  }

  function Invalidated(p: PredictionValue): PredictionValue {
    Cleared(p.(generation := p.generation + 1))
  }

  function Dirtied(p: PredictionValue): PredictionValue {
    if p.pending then p.(dirty := true) else p
  }

  predicate CanBegin(p: PredictionValue, completed: seq<nat>) {
    !p.pending && completed != []
  }

  function Begun(p: PredictionValue, completed: seq<nat>, raw: Text, bufferRevision: nat): PredictionValue {
    if p.pending then p.(dirty := true)
    else if completed == [] then p
    else p.(segmentIndices := completed, pending := true, dirty := false, key := raw, revision := bufferRevision)
  }

  class PredictionState {
    var sessionId: SessionId
    var nextRequestId: nat
    var generation: nat
    var inflightRequestId: Option<nat>
    var inflightRevision: nat
    var key: Text
    var revision: nat
    var segmentIndices: seq<nat>
    var pending: bool
    var dirty: bool

    function Value(): PredictionValue
      reads this
    {
      PredictionValue(sessionId, nextRequestId, generation, inflightRequestId, inflightRevision, key, revision, segmentIndices, pending, dirty)
    }

    constructor ()
      ensures Value() == NO_PREDICTION
    {
      sessionId, nextRequestId, generation, inflightRequestId, inflightRevision := 0, 1, 0, None, 0;
      key, revision, segmentIndices, pending, dirty := [], 0, [], false, false;
    }

    method MarkDirty()
      modifies this
      ensures Value() == Dirtied(old(Value()))
    {
      if pending {
        dirty := true;
      }
    }

    method ClearPending()
      modifies this
      ensures Value() == Cleared(old(Value()))
    {
      pending, dirty, inflightRequestId, inflightRevision, segmentIndices := false, false, None, 0, [];
    }

    method Invalidate()
      modifies this
      ensures Value() == Invalidated(old(Value()))
    {
      generation := generation + 1;
      ClearPending();
    }

    method Begin(completed: seq<nat>, raw: Text, bufferRevision: nat) returns (ok: bool)
      modifies this
      ensures ok == CanBegin(old(Value()), completed)
      ensures Value() == Begun(old(Value()), completed, raw, bufferRevision)
    {
      if pending {
        dirty := true;
        return false;
      }
      if completed == [] {
        return false;
      }
      segmentIndices, pending, dirty, key, revision := completed, true, false, raw, bufferRevision;
      return true;
    }

    method Finish() returns (wasDirty: bool)
      modifies this
      ensures wasDirty == old(dirty) && Value() == Cleared(old(Value()))
    {
      wasDirty := dirty;
      ClearPending();
    }
  }
}
