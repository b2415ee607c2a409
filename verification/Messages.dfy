/** The messages of the service protocol (engine/src/protocol/protocol.hpp). */
module Messages {
  import opened Wrappers
  import opened Utf

  type Text = seq<Unit>
  type Id = s: seq<Byte> | |s| == 16 witness [0, 0, 0, 0, 0, 0, 0, 0, 0, 0, 0, 0, 0, 0, 0, 0]
  type U32 = x: int | 0 <= x < 0x1_0000_0000
  type U64 = x: int | 0 <= x < 0x1_0000_0000_0000_0000

  predicate IsZero(id: Id) {
    forall i :: 0 <= i < 16 ==> id[i] == 0
  }

  predicate ValidUtf16(text: Text) {
    DecodeUtf16(text).Some?
  }

  datatype PaddingEntry = PaddingEntry(chosen: bool, bopomofo: Text, chosenChar: nat)

  datatype CommitEntry = CommitEntry(reading: Text, character: nat, manuallySelected: bool, literal: bool)

  datatype Commit = Commit(eventId: Id, sourceId: Id, context: Text, answer: Text, entries: seq<CommitEntry>)

  datatype SessionStatus = SessionStatus(sessionId: Id, active: bool, closing: bool, engineLoaded: bool, lastRequestId: U64)

  datatype Message =
    | OpenSessionRequest
    | OpenSessionResponse(sessionId: Id, serviceEpoch: Id)
    | PredictRequest(sessionId: Id, requestId: U64, bufferRevision: U64, context: Text, padding: seq<PaddingEntry>)
    | Prediction(sessionId: Id, requestId: U64, bufferRevision: U64, candidates: seq<seq<nat>>)
    | CloseSessionRequest(sessionId: Id)
    | CloseSessionResponse(sessionId: Id, closed: bool)
    | StatusRequest(session: Option<Id>)
    | StatusResponse(serviceEpoch: Id, shuttingDown: bool, modelLoaded: bool, activeSessions: U32, maxSessions: U32,
                     status: Option<SessionStatus>)
    | ShutdownRequest
    | ShutdownResponse(accepted: bool)
    | Error(code: nat, sessionId: Id, requestId: U64, bufferRevision: U64, message: seq<Byte>)
    | RecordCommitRequest(commit: Commit)
    | RecordCommitResponse(eventId: Id, stored: bool)
    | DiscardCommitRequest(eventId: Id)
    | DiscardCommitResponse(eventId: Id, discarded: bool)
}
