/** Frames of the protocol: encoding and decoding whole messages, and why the two implementations understand each
    other (engine/src/protocol/protocol.cpp, ime-unix-service/src/pipe/protocol.cpp). */
module Frames {
  import opened Wrappers
  import opened Sequences
  import opened Utf
  import opened Messages
  import opened Wire
  import opened Protocol
  import CommitStaging

  const MAX_COMMIT_ENTRIES := 1024
  const MAX_COMMIT_CONTEXT := 4096
  const MAX_COMMIT_ANSWER := 1024

  // ----- what may be encoded -----

  predicate CommitEncodable(c: Commit) {
    && !IsZero(c.eventId) && !IsZero(c.sourceId) && 1 <= |c.entries| <= MAX_COMMIT_ENTRIES && c.answer != []
    && ValidUtf16(c.context) && |c.context| <= MAX_COMMIT_CONTEXT
    && ValidUtf16(c.answer) && |c.answer| <= MAX_COMMIT_ANSWER
    && forall i :: 0 <= i < |c.entries| ==> EntryEncodable(c.entries[i])
  }

  predicate Encodable(m: Message) {
    match m
    case PredictRequest(session, id, _, context, padding) =>
      && !IsZero(session) && id != 0 && ValidUtf16(context) && |context| <= MAX_CONTEXT
      && |padding| <= MAX_REPEATED && forall i :: 0 <= i < |padding| ==> PaddingEncodable(padding[i])
    case Prediction(session, id, _, candidates) =>
      && !IsZero(session) && id != 0 && |candidates| <= MAX_REPEATED
      && forall i :: 0 <= i < |candidates| ==> ListEncodable(candidates[i])
    case CloseSessionRequest(session) => !IsZero(session)
    case CloseSessionResponse(session, _) => !IsZero(session)
    case Error(code, _, _, _, text) => 1 <= code <= 9 && |text| <= MAX_UTF8 && Utf8Octets(text)
    case RecordCommitRequest(commit) => CommitEncodable(commit)
    case DiscardCommitRequest(event) => !IsZero(event)
    case DiscardCommitResponse(event, _) => !IsZero(event)
    case _ => true
  }

  // ----- payloads -----

  function PutCommit(c: Commit): Bytes {
    c.eventId + (c.sourceId + (PutText(c.context) + (PutText(c.answer) + PutCounted(c.entries, PutEntry))))
  }

  function PutStatus(s: SessionStatus): Bytes {
    s.sessionId + (PutBool(s.active) + (PutBool(s.closing) + (PutBool(s.engineLoaded) + PutNumber(s.lastRequestId, 8))))
  }

  function Correlation(session: Id, id: U64, revision: U64, rest: Bytes): Bytes {
    session + (PutNumber(id, 8) + (PutNumber(revision, 8) + rest))
  }

  function Body(m: Message): Bytes {
    match m
    case OpenSessionRequest => [1, 0]
    case OpenSessionResponse(session, epoch) => [1, 1] + (session + epoch)
    case PredictRequest(session, id, revision, context, padding) =>
      [2] + Correlation(session, id, revision, PutText(context) + PutCounted(padding, PutPadding))
    case Prediction(session, id, revision, candidates) => [3] + Correlation(session, id, revision, PutCounted(candidates, PutList))
    case CloseSessionRequest(session) => [4, 0] + session
    case CloseSessionResponse(session, closed) => [4, 1] + (session + PutBool(closed))
    case StatusRequest(session) => [5, 0] + if session.Some? then [1] + session.value else [0]
    case StatusResponse(epoch, shuttingDown, modelLoaded, active, limit, status) =>
      [5, 1] + (epoch + (PutBool(shuttingDown) + (PutBool(modelLoaded) + (PutNumber(active, 4) + (PutNumber(limit, 4) +
        if status.Some? then [1] + PutStatus(status.value) else [0])))))
    case ShutdownRequest => [6, 0]
    case ShutdownResponse(accepted) => [6, 1] + PutBool(accepted)
    case Error(code, session, id, revision, text) =>
      [7] + (PutNumber(code, 1) + Correlation(session, id, revision, PutUtf8(text)))
    case RecordCommitRequest(commit) => [8, 0] + PutCommit(commit)
    case RecordCommitResponse(event, stored) => [8, 1] + (event + PutBool(stored))
    case DiscardCommitRequest(event) => [9, 0] + event
    case DiscardCommitResponse(event, discarded) => [9, 1] + (event + PutBool(discarded))
  }

  function Encode(m: Message): Option<Bytes> {
    if Encodable(m) && |Body(m)| <= MAX_FRAME then Some(PutNumber(|Body(m)|, 4) + Body(m)) else None
  }

  // ----- reading payloads -----

  function GetCorrelation(s: Bytes): Parsed<(Id, U64, U64)> {
    match GetId(s)
    case Failed => Failed
    case Got(session, s1) =>
      match GetNumber(s1, 8)
      case Failed => Failed
      case Got(id, s2) =>
        match GetNumber(s2, 8)
        case Failed => Failed
        case Got(revision, s3) =>
          Powers();
          var i: U64 := id;
          var r: U64 := revision;
          Got((session, i, r), s3)
  }

  function GetPredict(s: Bytes): Parsed<Message> {
    match GetCorrelation(s)
    case Failed => Failed
    case Got(c, s1) =>
      if c.1 == 0 then Failed
      else
        match GetText(s1, MAX_CONTEXT)
        case Failed => Failed
        case Got(context, s2) =>
          match GetCounted(s2, 1, GetPadding)
          case Failed => Failed
          case Got(padding, s3) => Got(PredictRequest(c.0, c.1, c.2, context, padding), s3)
  }

  function GetPrediction(s: Bytes): Parsed<Message> {
    match GetCorrelation(s)
    case Failed => Failed
    case Got(c, s1) =>
      if c.1 == 0 then Failed
      else
        match GetCounted(s1, 4, GetList)
        case Failed => Failed
        case Got(candidates, s2) => Got(Prediction(c.0, c.1, c.2, candidates), s2)
  }

  function GetError(s: Bytes): Parsed<Message> {
    if s == [] || s[0] < 1 || s[0] > 9 then Failed
    else
      match GetCorrelation(s[1..])
      case Failed => Failed
      case Got(c, s1) =>
        match GetUtf8(s1)
        case Failed => Failed
        case Got(text, s2) => Got(Message.Error(s[0], c.0, c.1, c.2, text), s2)
  }

  function GetIdAndFlag(s: Bytes): Parsed<(Id, bool)> {
    match GetId(s)
    case Failed => Failed
    case Got(id, s1) => match GetBool(s1) case Failed => Failed case Got(flag, s2) => Got((id, flag), s2)
  }

  function GetOpen(kind: Byte, s: Bytes): Parsed<Message> {
    if kind == 0 then Got(OpenSessionRequest, s)
    else if kind == 1 then
      match GetId(s)
      case Failed => Failed
      case Got(session, s1) => match GetId(s1) case Failed => Failed case Got(epoch, s2) => Got(OpenSessionResponse(session, epoch), s2)
    else Failed
  }

  function GetClose(kind: Byte, s: Bytes): Parsed<Message> {
    if kind == 0 then
      match GetId(s)
      case Failed => Failed
      case Got(session, s1) => if IsZero(session) then Failed else Got(CloseSessionRequest(session), s1)
    else if kind == 1 then
      match GetIdAndFlag(s)
      case Failed => Failed
      case Got(r, s1) => if IsZero(r.0) then Failed else Got(CloseSessionResponse(r.0, r.1), s1)
    else Failed
  }

  function GetSessionStatus(s: Bytes): Parsed<SessionStatus> {
    match GetId(s)
    case Failed => Failed
    case Got(session, s1) =>
      match GetBool(s1)
      case Failed => Failed
      case Got(active, s2) =>
        match GetBool(s2)
        case Failed => Failed
        case Got(closing, s3) =>
          match GetBool(s3)
          case Failed => Failed
          case Got(loaded, s4) =>
            match GetNumber(s4, 8)
            case Failed => Failed
            case Got(last, s5) =>
              Powers();
              var id: U64 := last;
              Got(SessionStatus(session, active, closing, loaded, id), s5)
  }

  function GetStatusHead(s: Bytes): Parsed<(Id, bool, bool, U32, U32)> {
    match GetId(s)
    case Failed => Failed
    case Got(epoch, s1) =>
      match GetBool(s1)
      case Failed => Failed
      case Got(shuttingDown, s2) =>
        match GetBool(s2)
        case Failed => Failed
        case Got(modelLoaded, s3) =>
          match GetNumber(s3, 4)
          case Failed => Failed
          case Got(active, s4) =>
            match GetNumber(s4, 4)
            case Failed => Failed
            case Got(limit, s5) =>
              Powers();
              var a: U32 := active;
              var l: U32 := limit;
              Got((epoch, shuttingDown, modelLoaded, a, l), s5)
  }

  function GetStatus(kind: Byte, s: Bytes): Parsed<Message> {
    if kind == 0 then
      match GetBool(s)
      case Failed => Failed
      case Got(present, s1) =>
        if !present then Got(StatusRequest(None), s1)
        else match GetId(s1) case Failed => Failed case Got(session, s2) => Got(StatusRequest(Some(session)), s2)
    else if kind == 1 then
      match GetStatusHead(s)
      case Failed => Failed
      case Got(h, s1) =>
        match GetBool(s1)
        case Failed => Failed
        case Got(present, s2) =>
          if !present then Got(StatusResponse(h.0, h.1, h.2, h.3, h.4, None), s2)
          else
            match GetSessionStatus(s2)
            case Failed => Failed
            case Got(status, s3) => Got(StatusResponse(h.0, h.1, h.2, h.3, h.4, Some(status)), s3)
    else Failed
  }

  function GetShutdown(kind: Byte, s: Bytes): Parsed<Message> {
    if kind == 0 then Got(ShutdownRequest, s)
    else if kind == 1 then match GetBool(s) case Failed => Failed case Got(accepted, s1) => Got(ShutdownResponse(accepted), s1)
    else Failed
  }

  function GetCommitHead(s: Bytes): Parsed<(Id, Id, Text, Text)> {
    match GetId(s)
    case Failed => Failed
    case Got(event, s1) =>
      match GetId(s1)
      case Failed => Failed
      case Got(source, s2) =>
        if IsZero(event) || IsZero(source) then Failed
        else
          match GetText(s2, MAX_COMMIT_CONTEXT)
          case Failed => Failed
          case Got(context, s3) =>
            match GetText(s3, MAX_COMMIT_ANSWER)
            case Failed => Failed
            case Got(answer, s4) => Got((event, source, context, answer), s4)
  }

  /** Only the client asks, before it reads the entries, whether that many can be left. */
  predicate CountPlausible(side: Side, count: nat, left: nat) {
    side == Client ==> count <= MAX_REPEATED && count <= left / 10
  }

  function GetEntries(side: Side, s: Bytes): Parsed<seq<CommitEntry>> {
    match GetNumber(s, 4)
    case Failed => Failed
    case Got(count, s1) =>
      if !CountPlausible(side, count, |s1|) || count == 0 || count > MAX_COMMIT_ENTRIES then Failed else GetMany(s1, count, GetEntry)
  }

  function GetCommit(side: Side, s: Bytes): Parsed<Commit> {
    match GetCommitHead(s)
    case Failed => Failed
    case Got(h, s1) =>
      match GetEntries(side, s1)
      case Failed => Failed
      case Got(entries, s2) => if h.3 == [] then Failed else Got(Commit(h.0, h.1, h.2, h.3, entries), s2)
  }

  function GetRecord(side: Side, kind: Byte, s: Bytes): Parsed<Message> {
    if kind == 0 then match GetCommit(side, s) case Failed => Failed case Got(commit, s1) => Got(RecordCommitRequest(commit), s1)
    else if kind == 1 then match GetIdAndFlag(s) case Failed => Failed case Got(r, s1) => Got(RecordCommitResponse(r.0, r.1), s1)
    else Failed
  }

  function GetDiscard(kind: Byte, s: Bytes): Parsed<Message> {
    if kind == 0 then
      match GetId(s)
      case Failed => Failed
      case Got(event, s1) => if IsZero(event) then Failed else Got(DiscardCommitRequest(event), s1)
    else if kind == 1 then
      match GetIdAndFlag(s)
      case Failed => Failed
      case Got(r, s1) => if IsZero(r.0) then Failed else Got(DiscardCommitResponse(r.0, r.1), s1)
    else Failed
  }

  function GetKinded(side: Side, number: Byte, s: Bytes): Parsed<Message> {
    if s == [] then Failed
    else if number == 1 then GetOpen(s[0], s[1..])
    else if number == 4 then GetClose(s[0], s[1..])
    else if number == 5 then GetStatus(s[0], s[1..])
    else if number == 6 then GetShutdown(s[0], s[1..])
    else if number == 8 then GetRecord(side, s[0], s[1..])
    else if number == 9 then GetDiscard(s[0], s[1..])
    else Failed
  }

  function GetMessage(side: Side, s: Bytes): Parsed<Message> {
    if s == [] then Failed
    else if s[0] == 2 then GetPredict(s[1..])
    else if s[0] == 3 then GetPrediction(s[1..])
    else if s[0] == 7 then GetError(s[1..])
    else GetKinded(side, s[0], s[1..])
  }

  function Decode(side: Side, frame: Bytes): Option<Message> {
    match GetNumber(frame, 4)
    case Failed => None
    case Got(length, s) =>
      if length > MAX_FRAME || |s| != length then None
      else
        match GetMessage(side, s)
        case Failed => None
        case Got(m, rest) => if rest == [] then Some(m) else None
  }

  // ----- the two decoders agree -----

  /** Where the client gives up early, the service runs out of bytes. */
  lemma EntriesAgree(s: Bytes)
    ensures GetEntries(Client, s) == GetEntries(Service, s)
  {
    hide GetEntry, GetMany, Consumes;
    var number := GetNumber(s, 4);
    if number.Got? {
      EntryConsumesTen();
      ManyConsumes(number.rest, number.value, GetEntry, 10);
    }
  }

  /** Both implementations accept exactly the same frames, with the same results. */
  lemma DecodersAgree(frame: Bytes)
    ensures Decode(Client, frame) == Decode(Service, frame)
  {
    hide GetEntries, GetCommitHead, GetPredict, GetPrediction, GetError, GetOpen, GetClose, GetStatus, GetShutdown, GetDiscard;
    var number := GetNumber(frame, 4);
    if number.Got? {
      var s := number.rest;
      if |s| >= 2 {
        var head := GetCommitHead(s[1..][1..]);
        if head.Got? {
          EntriesAgree(head.rest);
        }
      }
    }
  }

  // ----- round trips -----

  function SentAll(padding: seq<PaddingEntry>): (r: seq<PaddingEntry>)
    ensures |r| == |padding| && forall i :: 0 <= i < |r| ==> r[i] == Sent(padding[i])
  {
    seq(|padding|, i requires 0 <= i < |padding| => Sent(padding[i]))
  }

  /** The message the other side sees: all of it but the unused half of each padding entry. */
  function Received(m: Message): Message {
    if m.PredictRequest? then m.(padding := SentAll(m.padding)) else m
  }

  lemma CorrelationRoundTrip(session: Id, id: U64, revision: U64, rest: Bytes)
    ensures GetCorrelation(Correlation(session, id, revision, rest)) == Got((session, id, revision), rest)
  {
    hide GetNumber, PutNumber;
    Powers();
    IdRoundTrip(session, PutNumber(id, 8) + (PutNumber(revision, 8) + rest));
    GetNumberRoundTrip(id, 8, PutNumber(revision, 8) + rest);
    GetNumberRoundTrip(revision, 8, rest);
  }

  lemma PredictRoundTrip(m: Message)
    requires m.PredictRequest? && Encodable(m)
    ensures GetPredict(Correlation(m.sessionId, m.requestId, m.bufferRevision, PutText(m.context) + PutCounted(m.padding, PutPadding)))
      == Got(Received(m), [])
  {
    hide GetCorrelation, Correlation, GetText, PutText, GetCounted, PutCounted, PaddingEncodable, Inverse, DecodeUtf16, IsZero, GetPadding, PutPadding;
    var padding := PutCounted(m.padding, PutPadding);
    CorrelationRoundTrip(m.sessionId, m.requestId, m.bufferRevision, PutText(m.context) + padding);
    TextRoundTrip(m.context, MAX_CONTEXT, padding);
    forall i | 0 <= i < |m.padding|
      ensures Inverse(PutPadding, GetPadding, m.padding[i], SentAll(m.padding)[i]) && |PutPadding(m.padding[i])| >= 1 {
      PaddingRoundTrip(m.padding[i]);
    }
    NothingAdded(padding);
    CountedRoundTrip(m.padding, SentAll(m.padding), PutPadding, GetPadding, 1, []);
  }

  lemma PredictionRoundTrip(m: Message)
    requires m.Prediction? && Encodable(m)
    ensures GetPrediction(Correlation(m.sessionId, m.requestId, m.bufferRevision, PutCounted(m.candidates, PutList))) == Got(m, [])
  {
    hide GetCorrelation, Correlation, GetCounted, PutCounted, ListEncodable, Inverse, IsZero, GetList, PutList;
    var lists := PutCounted(m.candidates, PutList);
    CorrelationRoundTrip(m.sessionId, m.requestId, m.bufferRevision, lists);
    forall i | 0 <= i < |m.candidates|
      ensures Inverse(PutList, GetList, m.candidates[i], m.candidates[i]) && |PutList(m.candidates[i])| >= 4 {
      ListRoundTrip(m.candidates[i]);
    }
    NothingAdded(lists);
    CountedRoundTrip(m.candidates, m.candidates, PutList, GetList, 4, []);
  }

  lemma ErrorRoundTrip(m: Message)
    requires m.Error? && Encodable(m)
    ensures GetError(PutNumber(m.code, 1) + Correlation(m.sessionId, m.requestId, m.bufferRevision, PutUtf8(m.message))) == Got(m, [])
  {
    hide GetCorrelation, Correlation, GetUtf8, PutUtf8, Utf8Octets;
    var text := PutUtf8(m.message);
    var code := PutNumber(m.code, 1);
    assert code == [m.code];
    Parts(code, Correlation(m.sessionId, m.requestId, m.bufferRevision, text));
    CorrelationRoundTrip(m.sessionId, m.requestId, m.bufferRevision, text);
    NothingAdded(text);
    Utf8RoundTrip(m.message, []);
  }

  lemma CommitHeadRoundTrip(c: Commit, rest: Bytes)
    requires CommitEncodable(c)
    ensures GetCommitHead(c.eventId + (c.sourceId + (PutText(c.context) + (PutText(c.answer) + rest))))
      == Got((c.eventId, c.sourceId, c.context, c.answer), rest)
  {
    hide GetText, PutText, EntryEncodable, DecodeUtf16, IsZero, GetId;
    var s4 := PutText(c.answer) + rest;
    var s3 := PutText(c.context) + s4;
    IdRoundTrip(c.eventId, c.sourceId + s3);
    IdRoundTrip(c.sourceId, s3);
    TextRoundTrip(c.context, MAX_COMMIT_CONTEXT, s4);
    TextRoundTrip(c.answer, MAX_COMMIT_ANSWER, rest);
  }

  lemma CommitEntriesRoundTrip(entries: seq<CommitEntry>)
    requires 1 <= |entries| <= MAX_COMMIT_ENTRIES && forall i :: 0 <= i < |entries| ==> EntryEncodable(entries[i])
    ensures GetEntries(Service, PutCounted(entries, PutEntry)) == Got(entries, [])
  {
    hide EntryEncodable, Inverse, GetEntry, PutEntry, PutMany, GetMany;
    Powers();
    forall i | 0 <= i < |entries| ensures Inverse(PutEntry, GetEntry, entries[i], entries[i]) {
      EntryRoundTrip(entries[i]);
    }
    var body := PutMany(entries, PutEntry);
    GetNumberRoundTrip(|entries|, 4, body);
    NothingAdded(body);
    ManyRoundTrip(entries, entries, PutEntry, GetEntry, []);
  }

  lemma CommitRoundTrip(c: Commit)
    requires CommitEncodable(c)
    ensures GetCommit(Service, PutCommit(c)) == Got(c, [])
  {
    hide GetCommitHead, GetEntries, PutCounted, PutText, EntryEncodable, DecodeUtf16, IsZero;
    CommitHeadRoundTrip(c, PutCounted(c.entries, PutEntry));
    CommitEntriesRoundTrip(c.entries);
  }

  lemma SessionStatusRoundTrip(s: SessionStatus)
    ensures GetSessionStatus(PutStatus(s)) == Got(s, [])
  {
    hide GetNumber, PutNumber, GetId, GetBool, PutBool;
    Powers();
    var s5 := PutNumber(s.lastRequestId, 8);
    var s4 := PutBool(s.engineLoaded) + s5;
    var s3 := PutBool(s.closing) + s4;
    IdRoundTrip(s.sessionId, PutBool(s.active) + s3);
    BoolRoundTrip(s.active, s3);
    BoolRoundTrip(s.closing, s4);
    BoolRoundTrip(s.engineLoaded, s5);
    NothingAdded(s5);
    GetNumberRoundTrip(s.lastRequestId, 8, []);
  }

  lemma {:induction false} StatusHeadRoundTrip(epoch: Id, shuttingDown: bool, modelLoaded: bool, active: U32, limit: U32, rest: Bytes)
    ensures GetStatusHead(epoch + (PutBool(shuttingDown) + (PutBool(modelLoaded) + (PutNumber(active, 4) + (PutNumber(limit, 4) + rest)))))
      == Got((epoch, shuttingDown, modelLoaded, active, limit), rest)
  {
    hide GetNumber, PutNumber, GetId, GetBool, PutBool;
    Powers();
    var s4 := PutNumber(limit, 4) + rest;
    var s3 := PutNumber(active, 4) + s4;
    var s2 := PutBool(modelLoaded) + s3;
    IdRoundTrip(epoch, PutBool(shuttingDown) + s2);
    BoolRoundTrip(shuttingDown, s2);
    BoolRoundTrip(modelLoaded, s3);
    GetNumberRoundTrip(active, 4, s4);
    GetNumberRoundTrip(limit, 4, rest);
  }

  lemma StatusRoundTrip(m: Message)
    requires m.StatusResponse?
    ensures GetStatus(1, Body(m)[2..]) == Got(m, [])
  {
    hide GetStatusHead, GetSessionStatus, GetBool, PutBool, PutNumber, PutStatus;
    var tail := if m.status.Some? then [1] + PutStatus(m.status.value) else [0];
    Parts([5, 1], m.serviceEpoch + (PutBool(m.shuttingDown) + (PutBool(m.modelLoaded) + (PutNumber(m.activeSessions, 4) + (PutNumber(m.maxSessions, 4) + tail)))));
    StatusHeadRoundTrip(m.serviceEpoch, m.shuttingDown, m.modelLoaded, m.activeSessions, m.maxSessions, tail);
    PresentFlag(if m.status.Some? then PutStatus(m.status.value) else [], m.status.Some?);
    if m.status.Some? {
      SessionStatusRoundTrip(m.status.value);
    }
  }

  lemma PresentFlag(rest: Bytes, present: bool)
    ensures GetBool(if present then [1] + rest else [0]) == Got(present, if present then rest else [])
  {
    Parts([1], rest);
  }

  lemma StatusRequestRoundTrip(session: Option<Id>)
    ensures GetStatus(0, if session.Some? then [1] + session.value else [0]) == Got(StatusRequest(session), [])
  {
    hide GetBool, GetId;
    PresentFlag(if session.Some? then session.value else [], session.Some?);
    if session.Some? {
      NothingAdded<Byte>(session.value);
      IdRoundTrip(session.value, []);
    }
  }

  lemma IdAndFlagRoundTrip(id: Id, flag: bool)
    ensures GetIdAndFlag(id + PutBool(flag)) == Got((id, flag), [])
  {
    hide GetId, GetBool, PutBool;
    IdRoundTrip(id, PutBool(flag));
    NothingAdded(PutBool(flag));
    BoolRoundTrip(flag, []);
  }

  lemma LoneId(id: Id)
    ensures GetId(id) == Got(id, [])
  {
    NothingAdded<Byte>(id);
    IdRoundTrip(id, []);
  }

  lemma LoneBool(b: bool)
    ensures GetBool(PutBool(b)) == Got(b, [])
  {
    NothingAdded(PutBool(b));
    BoolRoundTrip(b, []);
  }

  /** The two first bytes of the messages that have a kind. */
  lemma KindedHead(number: Byte, kind: Byte, rest: Bytes)
    ensures var s := [number, kind] + rest;
      s != [] && s[0] == number && s[1..] != [] && s[1..][0] == kind && s[1..][1..] == rest && s[2..] == rest
  {
    var s := [number, kind] + rest;
    DropDrop(s, 1, 1);
    Parts([number, kind], rest);
  }

  lemma SmallRoundTrip(m: Message)
    requires m.OpenSessionRequest? || m.OpenSessionResponse? || m.ShutdownRequest? || m.ShutdownResponse?
    ensures GetMessage(Service, Body(m)) == Got(m, [])
  {
    hide GetId, GetBool, PutBool, GetStatus, GetRecord, GetClose, GetDiscard;
    NothingAdded<Byte>([1, 0]);
    NothingAdded<Byte>([6, 0]);
    match m
    case OpenSessionRequest => KindedHead(1, 0, []);
    case OpenSessionResponse(session, epoch) =>
      KindedHead(1, 1, session + epoch);
      IdRoundTrip(session, epoch);
      LoneId(epoch);
    case ShutdownRequest => KindedHead(6, 0, []);
    case ShutdownResponse(accepted) =>
      KindedHead(6, 1, PutBool(accepted));
      LoneBool(accepted);
  }

  lemma CloseRoundTrip(m: Message)
    requires Encodable(m) && (m.CloseSessionRequest? || m.CloseSessionResponse? || m.DiscardCommitRequest? || m.DiscardCommitResponse?)
    ensures GetMessage(Service, Body(m)) == Got(m, [])
  {
    hide GetId, GetIdAndFlag, PutBool, GetStatus, GetRecord, GetOpen, GetShutdown, IsZero;
    match m
    case CloseSessionRequest(session) =>
      KindedHead(4, 0, session);
      LoneId(session);
    case CloseSessionResponse(session, closed) =>
      KindedHead(4, 1, session + PutBool(closed));
      IdAndFlagRoundTrip(session, closed);
    case DiscardCommitRequest(event) =>
      KindedHead(9, 0, event);
      LoneId(event);
    case DiscardCommitResponse(event, discarded) =>
      KindedHead(9, 1, event + PutBool(discarded));
      IdAndFlagRoundTrip(event, discarded);
  }

  lemma LargeRoundTrip(m: Message)
    requires Encodable(m) && (m.StatusRequest? || m.StatusResponse? || m.RecordCommitRequest? || m.RecordCommitResponse?)
    ensures GetMessage(Service, Body(m)) == Got(m, [])
  {
    hide GetStatus, GetCommit, GetIdAndFlag, PutBool, PutCommit, GetClose, GetOpen, GetShutdown, GetDiscard, CommitEncodable, PutStatus;
    match m
    case StatusRequest(session) =>
      KindedHead(5, 0, if session.Some? then [1] + session.value else [0]);
      StatusRequestRoundTrip(session);
    case StatusResponse(_, _, _, _, _, _) =>
      KindedHead(5, 1, Body(m)[2..]);
      CutAt(Body(m), 2);
      StatusRoundTrip(m);
    case RecordCommitRequest(commit) =>
      KindedHead(8, 0, PutCommit(commit));
      CommitRoundTrip(commit);
    case RecordCommitResponse(event, stored) =>
      KindedHead(8, 1, event + PutBool(stored));
      IdAndFlagRoundTrip(event, stored);
  }

  lemma CorrelatedRoundTrip(m: Message)
    requires Encodable(m) && (m.PredictRequest? || m.Prediction? || m.Error?)
    ensures GetMessage(Service, Body(m)) == Got(Received(m), [])
  {
    hide GetPredict, GetPrediction, GetError, GetKinded, Correlation, Encodable, PutCounted, PutText, PutUtf8;
    match m
    case PredictRequest(session, id, revision, context, padding) =>
      Parts([2], Correlation(session, id, revision, PutText(context) + PutCounted(padding, PutPadding)));
      PredictRoundTrip(m);
    case Prediction(session, id, revision, candidates) =>
      Parts([3], Correlation(session, id, revision, PutCounted(candidates, PutList)));
      PredictionRoundTrip(m);
    case Error(code, session, id, revision, text) =>
      Parts([7], PutNumber(code, 1) + Correlation(session, id, revision, PutUtf8(text)));
      ErrorRoundTrip(m);
  }

  lemma BodyRoundTrip(m: Message)
    requires Encodable(m)
    ensures GetMessage(Service, Body(m)) == Got(Received(m), [])
  {
    hide GetMessage, Body, Encodable, SentAll;
    match m
    case PredictRequest(_, _, _, _, _) => CorrelatedRoundTrip(m);
    case Prediction(_, _, _, _) => CorrelatedRoundTrip(m);
    case Error(_, _, _, _, _) => CorrelatedRoundTrip(m);
    case CloseSessionRequest(_) => CloseRoundTrip(m);
    case CloseSessionResponse(_, _) => CloseRoundTrip(m);
    case DiscardCommitRequest(_) => CloseRoundTrip(m);
    case DiscardCommitResponse(_, _) => CloseRoundTrip(m);
    case StatusRequest(_) => LargeRoundTrip(m);
    case StatusResponse(_, _, _, _, _, _) => LargeRoundTrip(m);
    case RecordCommitRequest(_) => LargeRoundTrip(m);
    case RecordCommitResponse(_, _) => LargeRoundTrip(m);
    case _ => SmallRoundTrip(m);
  }

  /** Whatever one side encodes, either side decodes to the same message. */
  lemma RoundTrip(side: Side, m: Message)
    requires Encode(m).Some?
    ensures Decode(side, Encode(m).value) == Some(Received(m))
  {
    hide GetMessage, Body, Encodable, Received;
    Powers();
    BodyRoundTrip(m);
    GetNumberRoundTrip(|Body(m)|, 4, Body(m));
    DecodersAgree(Encode(m).value);
  }

  // ----- samples travel -----

  lemma EntriesSize(entries: seq<CommitEntry>)
    requires |entries| <= MAX_COMMIT_ENTRIES && forall i :: 0 <= i < |entries| ==> EntryEncodable(entries[i])
    ensures |PutCounted(entries, PutEntry)| <= 4 + 138 * MAX_COMMIT_ENTRIES
  {
    hide EntryEncodable, PutEntry;
    ManySize(entries);
  }

  lemma {:induction false} ManySize(entries: seq<CommitEntry>)
    requires forall i :: 0 <= i < |entries| ==> EntryEncodable(entries[i])
    ensures |PutMany(entries, PutEntry)| <= 138 * |entries|
  {
    hide EntryEncodable, PutEntry;
    if entries != [] {
      EntrySize(entries[0]);
      ManySize(entries[1..]);
    }
  }

  lemma EntrySize(e: CommitEntry)
    requires EntryEncodable(e)
    ensures |PutEntry(e)| <= 138
  {
    hide DecodeUtf16;
    TextTakesFour(e.reading);
  }

  /** A commit that the service's store accepts can always be sent, and arrives unchanged. */
  lemma AcceptableCommitTravels(c: Commit)
    requires CommitStaging.Acceptable(c)
    ensures Encode(RecordCommitRequest(c)).Some?
    ensures Decode(Service, Encode(RecordCommitRequest(c)).value) == Some(RecordCommitRequest(c))
  {
    hide DecodeUtf16, IsZero, CommitStaging.Spells, PutCounted, PutText;
    forall i | 0 <= i < |c.entries| ensures EntryEncodable(c.entries[i]) {
      AcceptableEntry(c.entries[i]);
    }
    EntriesSize(c.entries);
    TextTakesFour(c.context);
    TextTakesFour(c.answer);
    RoundTrip(Service, RecordCommitRequest(c));
  }

  lemma AcceptableEntry(e: CommitEntry)
    requires CommitStaging.EntryAcceptable(e)
    ensures EntryEncodable(e)
  {
    assert DecodeUtf16([]) == Some([]);
  }
}
