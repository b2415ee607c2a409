/** The bytes of a frame, place by place (engine/src/protocol/protocol.cpp:250-354,
    ime-unix-service/src/pipe/protocol.cpp:359-619). */
module FrameLayout {
  import opened Wrappers
  import opened Sequences
  import opened Utf
  import opened Messages
  import opened Wire
  import opened Protocol
  import opened Frames

  /** The bytes of a number of 32 bits, the low one first. */
  function Four(x: nat): Bytes {
    [x % 256, x / 256 % 256, x / 0x1_0000 % 256, x / 0x100_0000 % 256]
  }

  /** Dividing three times by 256 is dividing once. */
  lemma {:induction false} Divisions(x: nat)
    ensures x / 256 / 256 == x / 0x1_0000
    ensures x / 256 / 256 / 256 == x / 0x100_0000
  {
  }

  lemma {:induction false} FourBytes(x: U32)
    ensures PutNumber(x, 4) == Four(x)
  {
    var a := x / 256;
    var b := a / 256;
    var c := b / 256;
    assert b == x / 0x1_0000 && c == x / 0x100_0000 by {
      Divisions(x);
    }
    OneMore(c, 0, []);
    OneMore(b, 1, [c % 256]);
    OneMore(a, 2, [b % 256, c % 256]);
    OneMore(x, 3, [a % 256, b % 256, c % 256]);
  }

  lemma {:induction false} OneMore(x: nat, n: nat, high: Bytes)
    requires PutNumber(x / 256, n) == high
    ensures PutNumber(x, n + 1) == [x % 256] + high
  {
  }

  lemma {:induction false} TwoBytes(x: Unit)
    ensures PutNumber(x, 2) == [x % 256, x / 256]
  {
    assert PutNumber(x / 256, 1) == [x / 256 % 256] + PutNumber(x / 256 / 256, 0);
    assert PutNumber(x, 2) == [x % 256] + PutNumber(x / 256, 1);
  }

  /** Eight bytes, the low one first. */
  lemma {:induction false} EightBytes(x: U64)
    ensures PutNumber(x, 8) == Four(x % 0x1_0000_0000) + Four(x / 0x1_0000_0000)
  {
    var low, high := x % 0x1_0000_0000, x / 0x1_0000_0000;
    LowBytes(x, high, low, 4);
    FourBytes(low);
    FourBytes(high);
  }

  /** The low `n` bytes of a number, and the rest. */
  lemma {:induction false} LowBytes(x: nat, high: nat, low: nat, n: nat)
    requires n <= 4 && x == high * Power(n) + low && low < Power(n)
    ensures PutNumber(x, n + 4) == PutNumber(low, n) + PutNumber(high, 4)
    decreases n
  {
    if n == 0 {
      assert Power(0) == 1;
      NothingAdded(PutNumber(high, 4));
    } else {
      var p := Power(n - 1);
      assert Power(n) == 256 * p;
      Halves(x, high, low, p);
      LowBytes(x / 256, high, low / 256, n - 1);
      Associative([low % 256], PutNumber(low / 256, n - 1), PutNumber(high, 4));
    }
  }

  lemma Halves(x: nat, high: nat, low: nat, p: nat)
    requires p > 0 && x == high * (256 * p) + low && low < 256 * p
    ensures x % 256 == low % 256 && x / 256 == high * p + low / 256 && low / 256 < p
  {
    assert high * (256 * p) == 256 * (high * p);
    assert x == 256 * (high * p) + low;
  }

  /** A frame is its length and its body. */
  lemma FrameIs(m: Message)
    requires Encode(m).Some?
    ensures var body := Body(m);
      Encode(m).value == Four(|body|) + body && 2 <= |body| <= 0x10_0000
  {
    hide Body;
    FourBytes(|Body(m)|);
    BodyStarts(m);
  }

  /** Which messages can be sent: texts are UTF-16 and within 65536 units, lists within 65536 items, chosen characters and
      candidates are scalars but not zero, sessions, requests and events have ids, errors a code from 1 to 9. */
  predicate Sendable(m: Message) {
    match m
    case PredictRequest(session, id, _, context, padding) =>
      && (exists i :: 0 <= i < 16 && session[i] != 0) && id != 0 && DecodeUtf16(context).Some? && |context| <= 65536 && |padding| <= 65536
      && forall i :: 0 <= i < |padding| ==>
           if padding[i].chosen then padding[i].chosenChar != 0 && IsScalar(padding[i].chosenChar)
           else |padding[i].bopomofo| <= 4096 && DecodeUtf16(padding[i].bopomofo).Some?
    case Prediction(session, id, _, candidates) =>
      && (exists i :: 0 <= i < 16 && session[i] != 0) && id != 0 && |candidates| <= 65536
      && forall i :: 0 <= i < |candidates| ==>
           |candidates[i]| <= 65536 && forall j :: 0 <= j < |candidates[i]| ==> candidates[i][j] != 0 && IsScalar(candidates[i][j])
    case CloseSessionRequest(session) => exists i :: 0 <= i < 16 && session[i] != 0
    case CloseSessionResponse(session, _) => exists i :: 0 <= i < 16 && session[i] != 0
    case Error(code, _, _, _, text) => 1 <= code <= 9 && |text| <= 0x4_0000 && Utf8Octets(text)
    case RecordCommitRequest(commit) => CommitEncodable(commit)
    case DiscardCommitRequest(event) => exists i :: 0 <= i < 16 && event[i] != 0
    case DiscardCommitResponse(event, _) => exists i :: 0 <= i < 16 && event[i] != 0
    case _ => true
  }

  lemma SendableExactly(m: Message)
    ensures Encode(m).Some? <==> |Body(m)| <= 0x10_0000 && Sendable(m)
  {
    hide Body, DecodeUtf16, Utf8Octets, CommitEncodable;
  }

  /** A commit can be sent with ids, 1 to 1024 entries, an answer of 1 to 1024 units and a context of up to 4096; a literal
      entry has no reading, any other one a reading of up to 64 units. */
  lemma CommitSendableExactly(c: Commit)
    ensures CommitEncodable(c) <==>
      && (exists i :: 0 <= i < 16 && c.eventId[i] != 0) && (exists i :: 0 <= i < 16 && c.sourceId[i] != 0)
      && 1 <= |c.entries| <= 1024 && 1 <= |c.answer| <= 1024 && |c.context| <= 4096
      && DecodeUtf16(c.answer).Some? && DecodeUtf16(c.context).Some?
      && forall i :: 0 <= i < |c.entries| ==>
           var e := c.entries[i];
           e.literal == (e.reading == []) && |e.reading| <= 64 && DecodeUtf16(e.reading).Some? && e.character != 0 && IsScalar(e.character)
  {
    hide DecodeUtf16;
  }

  /** The kind of a message, and whether it is an answer where a kind has both. */
  predicate StartsAs(m: Message, body: Bytes) {
    && |body| >= 2
    && match m
       case OpenSessionRequest => body[0] == 1 && body[1] == 0
       case OpenSessionResponse(_, _) => body[0] == 1 && body[1] == 1
       case PredictRequest(_, _, _, _, _) => body[0] == 2
       case Prediction(_, _, _, _) => body[0] == 3
       case CloseSessionRequest(_) => body[0] == 4 && body[1] == 0
       case CloseSessionResponse(_, _) => body[0] == 4 && body[1] == 1
       case StatusRequest(_) => body[0] == 5 && body[1] == 0
       case StatusResponse(_, _, _, _, _, _) => body[0] == 5 && body[1] == 1
       case ShutdownRequest => body[0] == 6 && body[1] == 0
       case ShutdownResponse(_) => body[0] == 6 && body[1] == 1
       case Error(_, _, _, _, _) => body[0] == 7
       case RecordCommitRequest(_) => body[0] == 8 && body[1] == 0
       case RecordCommitResponse(_, _) => body[0] == 8 && body[1] == 1
       case DiscardCommitRequest(_) => body[0] == 9 && body[1] == 0
       case DiscardCommitResponse(_, _) => body[0] == 9 && body[1] == 1
  }

  lemma BodyStarts(m: Message)
    ensures StartsAs(m, Body(m))
  {
    hide PutCommit, PutStatus, PutText, PutUtf8, PutNumber;
  }

  /** The bytes from `at` on begin with `field`. */
  predicate Holds(body: Bytes, at: nat, field: Bytes) {
    at + |field| <= |body| && body[at..at + |field|] == field
  }

  lemma HoldsAfter(front: Bytes, field: Bytes, rest: Bytes)
    ensures Holds(front + (field + rest), |front|, field)
  {
    assert (front + (field + rest))[|front|..|front| + |field|] == field;
  }

  lemma HoldsNext(front: Bytes, field: Bytes, rest: Bytes)
    ensures front + (field + rest) == (front + field) + rest
  {
  }

  /** Session, request id and revision, in this order. */
  lemma CorrelationHolds(front: Bytes, session: Id, id: U64, revision: U64, rest: Bytes)
    ensures var body := front + Correlation(session, id, revision, rest);
      && Holds(body, |front|, session) && Holds(body, |front| + 16, Four(id % 0x1_0000_0000) + Four(id / 0x1_0000_0000))
      && Holds(body, |front| + 24, Four(revision % 0x1_0000_0000) + Four(revision / 0x1_0000_0000))
      && Holds(body, |front| + 32, rest) && |body| == |front| + 32 + |rest|
  {
    hide PutNumber, Four;
    EightBytes(id);
    EightBytes(revision);
    EightLong(id);
    EightLong(revision);
    var a, b := PutNumber(id, 8), PutNumber(revision, 8);
    HoldsAfter(front, session, a + (b + rest));
    HoldsNext(front, session, a + (b + rest));
    HoldsAfter(front + session, a, b + rest);
    HoldsNext(front + session, a, b + rest);
    HoldsAfter(front + session + a, b, rest);
    HoldsNext(front + session + a, b, rest);
    NothingAdded(rest);
    HoldsAfter(front + session + a + b, rest, []);
  }

  lemma {:induction false} EightLong(x: U64)
    ensures |PutNumber(x, 8)| == 8
  {
  }

  /** Requests and predictions: the three ids, and then the context and the padding, or the candidates. */
  lemma PredictionsHold(m: Message)
    requires m.PredictRequest? || m.Prediction?
    ensures var body := Body(m);
      && Holds(body, 1, m.sessionId) && Holds(body, 17, Four(m.requestId % 0x1_0000_0000) + Four(m.requestId / 0x1_0000_0000))
      && Holds(body, 25, Four(m.bufferRevision % 0x1_0000_0000) + Four(m.bufferRevision / 0x1_0000_0000))
      && (m.PredictRequest? ==> Holds(body, 33, PutText(m.context) + PutCounted(m.padding, PutPadding)))
      && (m.Prediction? ==> Holds(body, 33, PutCounted(m.candidates, PutList)))
  {
    hide PutText, Four, Correlation, Holds, PutCounted;
    if m.PredictRequest? {
      CorrelationHolds([2], m.sessionId, m.requestId, m.bufferRevision, PutText(m.context) + PutCounted(m.padding, PutPadding));
    } else {
      CorrelationHolds([3], m.sessionId, m.requestId, m.bufferRevision, PutCounted(m.candidates, PutList));
    }
  }

  /** An error: its code, the three ids and its text. */
  lemma ErrorsHold(m: Message)
    requires m.Error? && 1 <= m.code <= 9
    ensures var body := Body(m);
      && body[0] == 7 && |body| > 33 && body[1] == m.code && Holds(body, 2, m.sessionId)
      && Holds(body, 18, Four(m.requestId % 0x1_0000_0000) + Four(m.requestId / 0x1_0000_0000))
      && Holds(body, 26, Four(m.bufferRevision % 0x1_0000_0000) + Four(m.bufferRevision / 0x1_0000_0000))
      && Holds(body, 34, PutUtf8(m.message))
  {
    hide PutUtf8, Four, Correlation, Holds;
    OneByte(m.code);
    var rest := Correlation(m.sessionId, m.requestId, m.bufferRevision, PutUtf8(m.message));
    CorrelationHolds([7, m.code], m.sessionId, m.requestId, m.bufferRevision, PutUtf8(m.message));
    assert [7] + ([m.code] + rest) == [7, m.code] + rest;
  }

  lemma {:induction false} OneByte(x: nat)
    requires x < 256
    ensures PutNumber(x, 1) == [x]
  {
    assert PutNumber(x, 1) == [x % 256] + PutNumber(x / 256, 0);
  }

  /** The short messages, whole. */
  lemma ShortBodies(m: Message)
    ensures m.OpenSessionRequest? ==> Body(m) == [1, 0]
    ensures m.OpenSessionResponse? ==> Body(m) == [1, 1] + m.sessionId + m.serviceEpoch
    ensures m.CloseSessionRequest? ==> Body(m) == [4, 0] + m.sessionId
    ensures m.CloseSessionResponse? ==> Body(m) == [4, 1] + m.sessionId + [if m.closed then 1 else 0]
    ensures m.StatusRequest? ==> Body(m) == if m.session.Some? then [5, 0, 1] + m.session.value else [5, 0, 0]
    ensures m.ShutdownRequest? ==> Body(m) == [6, 0]
    ensures m.ShutdownResponse? ==> Body(m) == [6, 1, if m.accepted then 1 else 0]
    ensures m.RecordCommitResponse? ==> Body(m) == [8, 1] + m.eventId + [if m.stored then 1 else 0]
    ensures m.DiscardCommitRequest? ==> Body(m) == [9, 0] + m.eventId
    ensures m.DiscardCommitResponse? ==> Body(m) == [9, 1] + m.eventId + [if m.discarded then 1 else 0]
  {
    hide PutCommit, PutStatus, PutText, PutUtf8, PutNumber;
  }

  function Flag(b: bool): Bytes {
    [if b then 1 else 0]
  }

  /** The status of a session. */
  lemma SessionIs(s: SessionStatus)
    ensures PutStatus(s) == s.sessionId + (Flag(s.active) + (Flag(s.closing) + (Flag(s.engineLoaded) +
      (Four(s.lastRequestId % 0x1_0000_0000) + Four(s.lastRequestId / 0x1_0000_0000)))))
  {
    hide PutNumber, Four;
    EightBytes(s.lastRequestId);
  }

  /** The status: epoch, two flags, two counts and, behind a flag, the session's. */
  lemma StatusIs(m: Message)
    requires m.StatusResponse?
    ensures Body(m) == [5, 1] + (m.serviceEpoch + (Flag(m.shuttingDown) + (Flag(m.modelLoaded) +
      (Four(m.activeSessions) + (Four(m.maxSessions) + if m.status.None? then [0] else [1] + PutStatus(m.status.value))))))
  {
    hide PutNumber, Four, PutStatus;
    FourBytes(m.activeSessions);
    FourBytes(m.maxSessions);
  }

  /** A commit: event, source, context, answer and entries; an entry: reading, character and two flags. */
  lemma CommitIs(c: Commit)
    ensures PutCommit(c) == c.eventId + c.sourceId + PutText(c.context) + PutText(c.answer) + PutCounted(c.entries, PutEntry)
    ensures Body(RecordCommitRequest(c)) == [8, 0] + PutCommit(c)
  {
    hide PutText, PutCounted;
  }

  lemma EntryIs(e: CommitEntry)
    requires e.character < 0x1_0000_0000
    ensures PutEntry(e) == PutText(e.reading) + Four(e.character) + Flag(e.manuallySelected) + Flag(e.literal)
  {
    hide PutText, PutNumber, Four;
    FourBytes(e.character);
  }

  /** A padding entry: the chosen character behind 1, or the reading behind 0. */
  lemma PaddingIs(e: PaddingEntry)
    requires e.chosenChar < 0x1_0000_0000
    ensures PutPadding(e) == if e.chosen then [1] + Four(e.chosenChar) else [0] + PutText(e.bopomofo)
  {
    hide PutText, PutNumber, Four;
    FourBytes(e.chosenChar);
  }

  /** Texts and lists are counted; a text's units take two bytes each, a character four. */
  lemma {:induction false} CountedTexts(text: Text, utf8: Bytes)
    requires |text| < 0x1_0000_0000 && |utf8| < 0x1_0000_0000
    ensures PutText(text) == Four(|text|) + PutUnits(text) && |PutUnits(text)| == 2 * |text|
    ensures text != [] ==> PutUnits(text) == [text[0] % 256, text[0] / 256] + PutUnits(text[1..])
    ensures PutUtf8(utf8) == Four(|utf8|) + utf8
  {
    hide PutNumber, Four;
    FourBytes(|text|);
    FourBytes(|utf8|);
    if text != [] {
      TwoBytes(text[0]);
    }
  }
}
