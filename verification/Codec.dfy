/** Decoding frames with the reader, and encoding messages by appending to a byte vector
    (engine/src/protocol/protocol.cpp and ime-unix-service/src/pipe/protocol.cpp). */
module Codec {
  import opened Wrappers
  import opened Sequences
  import opened Utf
  import opened Messages
  import opened Wire
  import opened Protocol
  import opened Frames
  import opened Readers

  // ----- decoding -----

  method ReadCorrelation(reader: Reader) returns (r: Option<(Id, U64, U64)>)
    requires reader.Valid()
    modifies reader
    ensures reader.Valid() && Reads(GetCorrelation(old(reader.Left())), r, reader.Left())
  {
    hide GetId;
    Powers();
    var session := reader.ReadId();
    if session.None? {
      return None;
    }
    var id := reader.ReadNumber(8);
    if id.None? {
      return None;
    }
    var revision := reader.ReadNumber(8);
    if revision.None? {
      return None;
    }
    var i: U64 := id.value;
    var v: U64 := revision.value;
    return Some((session.value, i, v));
  }

  method ReadPredict(reader: Reader) returns (r: Option<Message>)
    requires reader.Valid()
    modifies reader
    ensures reader.Valid() && Reads(GetPredict(old(reader.Left())), r, reader.Left())
  {
    hide GetCorrelation, GetText, GetCounted;
    var c := ReadCorrelation(reader);
    if c.None? || c.value.1 == 0 {
      return None;
    }
    var context := reader.ReadUtf16(MAX_CONTEXT);
    if context.None? {
      return None;
    }
    var padding := reader.ReadPadding();
    if padding.None? {
      return None;
    }
    return Some(PredictRequest(c.value.0, c.value.1, c.value.2, context.value, padding.value));
  }

  method ReadPrediction(reader: Reader) returns (r: Option<Message>)
    requires reader.Valid()
    modifies reader
    ensures reader.Valid() && Reads(GetPrediction(old(reader.Left())), r, reader.Left())
  {
    hide GetCorrelation, GetCounted;
    var c := ReadCorrelation(reader);
    if c.None? || c.value.1 == 0 {
      return None;
    }
    var candidates := reader.ReadCandidates();
    if candidates.None? {
      return None;
    }
    return Some(Prediction(c.value.0, c.value.1, c.value.2, candidates.value));
  }

  method ReadError(side: Side, reader: Reader) returns (r: Option<Message>)
    requires reader.Valid()
    modifies reader
    ensures reader.Valid() && Reads(GetError(old(reader.Left())), r, reader.Left())
  {
    hide GetCorrelation, GetUtf8;
    var code := reader.ReadU8();
    if code.None? || code.value < 1 || code.value > 9 {
      return None;
    }
    var c := ReadCorrelation(reader);
    if c.None? {
      return None;
    }
    var text := reader.ReadUtf8(side);
    if text.None? {
      return None;
    }
    return Some(Message.Error(code.value, c.value.0, c.value.1, c.value.2, text.value));
  }

  method ReadIdAndFlag(reader: Reader) returns (r: Option<(Id, bool)>)
    requires reader.Valid()
    modifies reader
    ensures reader.Valid() && Reads(GetIdAndFlag(old(reader.Left())), r, reader.Left())
  {
    hide GetId, GetBool;
    var id := reader.ReadId();
    if id.None? {
      return None;
    }
    var flag := reader.ReadBool();
    return if flag.None? then None else Some((id.value, flag.value));
  }

  method ReadOpen(kind: Byte, reader: Reader) returns (r: Option<Message>)
    requires reader.Valid()
    modifies reader
    ensures reader.Valid() && Reads(GetOpen(kind, old(reader.Left())), r, reader.Left())
  {
    hide GetId;
    if kind == 0 {
      return Some(OpenSessionRequest);
    }
    if kind != 1 {
      return None;
    }
    var session := reader.ReadId();
    if session.None? {
      return None;
    }
    var epoch := reader.ReadId();
    return if epoch.None? then None else Some(OpenSessionResponse(session.value, epoch.value));
  }

  method ReadClose(kind: Byte, reader: Reader) returns (r: Option<Message>)
    requires reader.Valid()
    modifies reader
    ensures reader.Valid() && Reads(GetClose(kind, old(reader.Left())), r, reader.Left())
  {
    hide GetId, GetIdAndFlag, IsZero;
    if kind == 0 {
      var session := reader.ReadId();
      return if session.None? || IsZero(session.value) then None else Some(CloseSessionRequest(session.value));
    }
    if kind != 1 {
      return None;
    }
    var closed := ReadIdAndFlag(reader);
    return if closed.None? || IsZero(closed.value.0) then None else Some(CloseSessionResponse(closed.value.0, closed.value.1));
  }

  method ReadSessionStatus(reader: Reader) returns (r: Option<SessionStatus>)
    requires reader.Valid()
    modifies reader
    ensures reader.Valid() && Reads(GetSessionStatus(old(reader.Left())), r, reader.Left())
  {
    hide GetId, GetBool;
    Powers();
    var session := reader.ReadId();
    if session.None? {
      return None;
    }
    var active := reader.ReadBool();
    if active.None? {
      return None;
    }
    var closing := reader.ReadBool();
    if closing.None? {
      return None;
    }
    var loaded := reader.ReadBool();
    if loaded.None? {
      return None;
    }
    var last := reader.ReadNumber(8);
    if last.None? {
      return None;
    }
    return Some(SessionStatus(session.value, active.value, closing.value, loaded.value, last.value));
  }

  method ReadStatusHead(reader: Reader) returns (r: Option<(Id, bool, bool, U32, U32)>)
    requires reader.Valid()
    modifies reader
    ensures reader.Valid() && Reads(GetStatusHead(old(reader.Left())), r, reader.Left())
  {
    hide GetId, GetBool;
    Powers();
    var epoch := reader.ReadId();
    if epoch.None? {
      return None;
    }
    var shuttingDown := reader.ReadBool();
    if shuttingDown.None? {
      return None;
    }
    var modelLoaded := reader.ReadBool();
    if modelLoaded.None? {
      return None;
    }
    var active := reader.ReadNumber(4);
    if active.None? {
      return None;
    }
    var limit := reader.ReadNumber(4);
    if limit.None? {
      return None;
    }
    var a: U32 := active.value;
    var l: U32 := limit.value;
    return Some((epoch.value, shuttingDown.value, modelLoaded.value, a, l));
  }

  method ReadStatus(kind: Byte, reader: Reader) returns (r: Option<Message>)
    requires reader.Valid()
    modifies reader
    ensures reader.Valid() && Reads(GetStatus(kind, old(reader.Left())), r, reader.Left())
  {
    hide GetId, GetBool, GetStatusHead, GetSessionStatus;
    if kind == 0 {
      var present := reader.ReadBool();
      if present.None? {
        return None;
      }
      if !present.value {
        return Some(StatusRequest(None));
      }
      var session := reader.ReadId();
      return if session.None? then None else Some(StatusRequest(session));
    }
    if kind != 1 {
      return None;
    }
    var head := ReadStatusHead(reader);
    if head.None? {
      return None;
    }
    var h := head.value;
    var present := reader.ReadBool();
    if present.None? {
      return None;
    }
    if !present.value {
      return Some(StatusResponse(h.0, h.1, h.2, h.3, h.4, None));
    }
    var status := ReadSessionStatus(reader);
    return if status.None? then None else Some(StatusResponse(h.0, h.1, h.2, h.3, h.4, status));
  }

  method ReadShutdown(kind: Byte, reader: Reader) returns (r: Option<Message>)
    requires reader.Valid()
    modifies reader
    ensures reader.Valid() && Reads(GetShutdown(kind, old(reader.Left())), r, reader.Left())
  {
    hide GetBool;
    if kind == 0 {
      return Some(ShutdownRequest);
    }
    if kind != 1 {
      return None;
    }
    var accepted := reader.ReadBool();
    return if accepted.None? then None else Some(ShutdownResponse(accepted.value));
  }

  method ReadCommit(side: Side, reader: Reader) returns (r: Option<Commit>)
    requires reader.Valid()
    modifies reader
    ensures reader.Valid() && Reads(GetCommit(side, old(reader.Left())), r, reader.Left())
  {
    hide GetId, GetText, GetEntries, IsZero;
    var event := reader.ReadId();
    if event.None? {
      return None;
    }
    var source := reader.ReadId();
    if source.None? || IsZero(event.value) || IsZero(source.value) {
      return None;
    }
    var context := reader.ReadUtf16(MAX_COMMIT_CONTEXT);
    if context.None? {
      return None;
    }
    var answer := reader.ReadUtf16(MAX_COMMIT_ANSWER);
    if answer.None? {
      return None;
    }
    var entries := reader.ReadEntries(side);
    if entries.None? || answer.value == [] {
      return None;
    }
    return Some(Commit(event.value, source.value, context.value, answer.value, entries.value));
  }

  method ReadRecord(side: Side, kind: Byte, reader: Reader) returns (r: Option<Message>)
    requires reader.Valid()
    modifies reader
    ensures reader.Valid() && Reads(GetRecord(side, kind, old(reader.Left())), r, reader.Left())
  {
    hide GetCommit, GetIdAndFlag;
    if kind == 0 {
      var commit := ReadCommit(side, reader);
      return if commit.None? then None else Some(RecordCommitRequest(commit.value));
    }
    if kind != 1 {
      return None;
    }
    var stored := ReadIdAndFlag(reader);
    return if stored.None? then None else Some(RecordCommitResponse(stored.value.0, stored.value.1));
  }

  method ReadDiscard(kind: Byte, reader: Reader) returns (r: Option<Message>)
    requires reader.Valid()
    modifies reader
    ensures reader.Valid() && Reads(GetDiscard(kind, old(reader.Left())), r, reader.Left())
  {
    hide GetId, GetIdAndFlag, IsZero;
    if kind == 0 {
      var event := reader.ReadId();
      return if event.None? || IsZero(event.value) then None else Some(DiscardCommitRequest(event.value));
    }
    if kind != 1 {
      return None;
    }
    var discarded := ReadIdAndFlag(reader);
    return if discarded.None? || IsZero(discarded.value.0) then None else Some(DiscardCommitResponse(discarded.value.0, discarded.value.1));
  }

  method ReadKinded(side: Side, number: Byte, reader: Reader) returns (r: Option<Message>)
    requires reader.Valid()
    modifies reader
    ensures reader.Valid() && Reads(GetKinded(side, number, old(reader.Left())), r, reader.Left())
  {
    hide GetOpen, GetClose, GetStatus, GetShutdown, GetRecord, GetDiscard;
    var kind := reader.ReadU8();
    if kind.None? {
      return None;
    }
    match number {
      case 1 => r := ReadOpen(kind.value, reader);
      case 4 => r := ReadClose(kind.value, reader);
      case 5 => r := ReadStatus(kind.value, reader);
      case 6 => r := ReadShutdown(kind.value, reader);
      case 8 => r := ReadRecord(side, kind.value, reader);
      case 9 => r := ReadDiscard(kind.value, reader);
      case _ => r := None;
    }
  }

  method ReadMessage(side: Side, reader: Reader) returns (r: Option<Message>)
    requires reader.Valid()
    modifies reader
    ensures reader.Valid() && Reads(GetMessage(side, old(reader.Left())), r, reader.Left())
  {
    hide GetPredict, GetPrediction, GetError, GetKinded;
    var number := reader.ReadU8();
    if number.None? {
      return None;
    }
    match number.value {
      case 2 => r := ReadPredict(reader);
      case 3 => r := ReadPrediction(reader);
      case 7 => r := ReadError(side, reader);
      case _ => r := ReadKinded(side, number.value, reader);
    }
  }

  method DecodeFrame(side: Side, frame: Bytes) returns (r: Option<Message>)
    ensures r == Decode(side, frame)
  {
    hide GetMessage, GetNumber, Reader.Left;
    FrameLength(frame);
    var reader := new Reader(frame);
    var length := reader.ReadNumber(4);
    if length.None? || length.value > MAX_FRAME || |frame| != 4 + length.value {
      return None;
    }
    r := ReadMessage(side, reader);
    var left := reader.Remaining();
    if left != 0 {
      return None;
    }
  }

  lemma FrameLength(frame: Bytes)
    ensures GetNumber(frame, 4).Got? ==> |frame| == 4 + |GetNumber(frame, 4).rest|
  {
  }

  // ----- encoding -----

  /** Appends `width` bytes of a number, low byte first. */
  method AppendNumber(out: Bytes, x: nat, width: nat) returns (r: Bytes)
    ensures r == out + PutNumber(x, width)
  {
    r := out;
    var value := x;
    var k := 0;
    while k < width
      invariant 0 <= k <= width && out + PutNumber(x, width) == r + PutNumber(value, width - k)
    {
      var low: Byte := value % 256;
      Associative(r, [low], PutNumber(value / 256, width - k - 1));
      r := r + [low];
      value := value / 256;
      k := k + 1;
    }
    NothingAdded(r);
  }

  method AppendText16(out: Bytes, text: Text, limit: nat) returns (r: Option<Bytes>)
    ensures r == if ValidUtf16(text) && |text| <= limit then Some(out + PutText(text)) else None
  {
    hide DecodeUtf16;
    var ok := CheckUtf16(text);
    if !ok || |text| > limit {
      return None;
    }
    var all := AppendNumber(out, |text|, 4);
    var i := 0;
    Whole(text);
    while i < |text|
      invariant 0 <= i <= |text| && out + PutNumber(|text|, 4) + PutUnits(text) == all + PutUnits(text[i..])
    {
      PushOne(text, i);
      Associative(all, PutNumber(text[i], 2), PutUnits(text[i + 1..]));
      all := AppendNumber(all, text[i], 2);
      i := i + 1;
    }
    Whole(text);
    NothingAdded(all);
    Associative(out, PutNumber(|text|, 4), PutUnits(text));
    return Some(all);
  }

  method AppendText8(side: Side, out: Bytes, text: Bytes) returns (r: Option<Bytes>)
    ensures r == if Utf8Octets(text) && |text| <= MAX_UTF8 then Some(out + PutUtf8(text)) else None
  {
    hide Utf8Octets;
    var ok;
    if side == Client {
      ok := ClientValidUtf8(text);
    } else {
      ok := ServiceValidUtf8(text);
    }
    if !ok || |text| > MAX_UTF8 {
      return None;
    }
    var size := AppendNumber(out, |text|, 4);
    Associative(out, PutNumber(|text|, 4), text);
    return Some(size + text);
  }

  method AppendPaddingEntry(out: Bytes, e: PaddingEntry) returns (r: Option<Bytes>)
    ensures r == if PaddingEncodable(e) then Some(out + PutPadding(e)) else None
  {
    hide DecodeUtf16, PutNumber, PutText;
    if e.chosen {
      if e.chosenChar == 0 || !IsScalar(e.chosenChar) {
        return None;
      }
      var all := AppendNumber(out + [1], e.chosenChar, 4);
      Associative(out, [1], PutNumber(e.chosenChar, 4));
      return Some(all);
    }
    r := AppendText16(out + [0], e.bopomofo, MAX_BOPOMOFO);
    Associative(out, [0], PutText(e.bopomofo));
  }

  lemma AppendMany<T>(out: Bytes, items: seq<T>, i: nat, put: T -> Bytes)
    requires i < |items|
    ensures out + PutMany(items[i..], put) == out + put(items[i]) + PutMany(items[i + 1..], put)
  {
    PushOne(items, i);
    Associative(out, put(items[i]), PutMany(items[i + 1..], put));
  }

  method AppendPadding(out: Bytes, padding: seq<PaddingEntry>) returns (r: Option<Bytes>)
    ensures r == if |padding| <= MAX_REPEATED && (forall i :: 0 <= i < |padding| ==> PaddingEncodable(padding[i]))
                 then Some(out + PutCounted(padding, PutPadding)) else None
  {
    hide PaddingEncodable, PutPadding, PutMany, PutNumber;
    if |padding| > MAX_REPEATED {
      return None;
    }
    var all := AppendNumber(out, |padding|, 4);
    Associative(out, PutNumber(|padding|, 4), PutMany(padding, PutPadding));
    var i := 0;
    Whole(padding);
    while i < |padding|
      invariant 0 <= i <= |padding| && out + PutCounted(padding, PutPadding) == all + PutMany(padding[i..], PutPadding)
      invariant forall k :: 0 <= k < i ==> PaddingEncodable(padding[k])
    {
      AppendMany(all, padding, i, PutPadding);
      var next := AppendPaddingEntry(all, padding[i]);
      if next.None? {
        return None;
      }
      all := next.value;
      i := i + 1;
    }
    NoMore(all, padding, PutPadding);
    return Some(all);
  }

  lemma NoMore<T>(out: Bytes, items: seq<T>, put: T -> Bytes)
    ensures out + PutMany(items[|items|..], put) == out
  {
    Whole(items);
    NothingAdded(out);
  }

  method AppendList(out: Bytes, list: seq<nat>) returns (r: Option<Bytes>)
    ensures r == if ListEncodable(list) then Some(out + PutList(list)) else None
  {
    hide PutMany, PutNumber;
    if |list| > MAX_REPEATED {
      return None;
    }
    var all := AppendNumber(out, |list|, 4);
    Associative(out, PutNumber(|list|, 4), PutMany(list, PutScalar));
    var i := 0;
    Whole(list);
    while i < |list|
      invariant 0 <= i <= |list| && out + PutList(list) == all + PutMany(list[i..], PutScalar)
      invariant forall k :: 0 <= k < i ==> list[k] != 0 && IsScalar(list[k])
    {
      AppendMany(all, list, i, PutScalar);
      if list[i] == 0 || !IsScalar(list[i]) {
        return None;
      }
      all := AppendNumber(all, list[i], 4);
      i := i + 1;
    }
    NoMore(all, list, PutScalar);
    return Some(all);
  }

  method AppendCandidates(out: Bytes, lists: seq<seq<nat>>) returns (r: Option<Bytes>)
    ensures r == if |lists| <= MAX_REPEATED && (forall i :: 0 <= i < |lists| ==> ListEncodable(lists[i]))
                 then Some(out + PutCounted(lists, PutList)) else None
  {
    hide ListEncodable, PutList, PutMany, PutNumber;
    if |lists| > MAX_REPEATED {
      return None;
    }
    var all := AppendNumber(out, |lists|, 4);
    Associative(out, PutNumber(|lists|, 4), PutMany(lists, PutList));
    var i := 0;
    Whole(lists);
    while i < |lists|
      invariant 0 <= i <= |lists| && out + PutCounted(lists, PutList) == all + PutMany(lists[i..], PutList)
      invariant forall k :: 0 <= k < i ==> ListEncodable(lists[k])
    {
      AppendMany(all, lists, i, PutList);
      var next := AppendList(all, lists[i]);
      if next.None? {
        return None;
      }
      all := next.value;
      i := i + 1;
    }
    NoMore(all, lists, PutList);
    return Some(all);
  }

  method AppendEntry(out: Bytes, e: CommitEntry) returns (r: Option<Bytes>)
    ensures r == if EntryEncodable(e) then Some(out + PutEntry(e)) else None
  {
    hide DecodeUtf16, PutNumber, PutText, PutBool;
    if e.literal != (e.reading == []) {
      return None;
    }
    var reading := AppendText16(out, e.reading, 64);
    if reading.None? || e.character == 0 || !IsScalar(e.character) {
      return None;
    }
    var all := AppendNumber(reading.value, e.character, 4);
    var manual, literal := PutBool(e.manuallySelected), PutBool(e.literal);
    Associative(out, PutText(e.reading), PutNumber(e.character, 4) + (manual + literal));
    Associative(out + PutText(e.reading), PutNumber(e.character, 4), manual + literal);
    Associative(all, manual, literal);
    return Some(all + manual + literal);
  }

  method AppendEntries(out: Bytes, entries: seq<CommitEntry>) returns (r: Option<Bytes>)
    ensures r == if |entries| <= MAX_COMMIT_ENTRIES && (forall i :: 0 <= i < |entries| ==> EntryEncodable(entries[i]))
                 then Some(out + PutCounted(entries, PutEntry)) else None
  {
    hide EntryEncodable, PutEntry, PutMany, PutNumber;
    if |entries| > MAX_COMMIT_ENTRIES {
      return None;
    }
    var all := AppendNumber(out, |entries|, 4);
    Associative(out, PutNumber(|entries|, 4), PutMany(entries, PutEntry));
    var i := 0;
    Whole(entries);
    while i < |entries|
      invariant 0 <= i <= |entries| && out + PutCounted(entries, PutEntry) == all + PutMany(entries[i..], PutEntry)
      invariant forall k :: 0 <= k < i ==> EntryEncodable(entries[k])
    {
      AppendMany(all, entries, i, PutEntry);
      var next := AppendEntry(all, entries[i]);
      if next.None? {
        return None;
      }
      all := next.value;
      i := i + 1;
    }
    NoMore(all, entries, PutEntry);
    return Some(all);
  }

  // ----- payloads -----

  lemma Nest3(a: Bytes, b: Bytes, c: Bytes, d: Bytes)
    ensures a + (b + (c + d)) == a + b + c + d
  {
    Associative(a, b, c + d);
    Associative(a + b, c, d);
  }

  lemma Nest4(a: Bytes, b: Bytes, c: Bytes, d: Bytes, e: Bytes)
    ensures a + (b + (c + (d + e))) == a + b + c + d + e
  {
    Associative(a, b, c + (d + e));
    Nest3(a + b, c, d, e);
  }

  lemma Nest5(a: Bytes, b: Bytes, c: Bytes, d: Bytes, e: Bytes, f: Bytes)
    ensures a + (b + (c + (d + (e + f)))) == a + b + c + d + e + f
  {
    Associative(a, b, c + (d + (e + f)));
    Nest4(a + b, c, d, e, f);
  }

  lemma Nest6(a: Bytes, b: Bytes, c: Bytes, d: Bytes, e: Bytes, f: Bytes, g: Bytes)
    ensures a + (b + (c + (d + (e + (f + g))))) == a + b + c + d + e + f + g
  {
    Associative(a, b, c + (d + (e + (f + g))));
    Nest5(a + b, c, d, e, f, g);
  }

  method AppendCorrelation(out: Bytes, session: Id, id: U64, revision: U64) returns (r: Bytes)
    ensures forall rest: Bytes :: out + Correlation(session, id, revision, rest) == r + rest
  {
    r := AppendNumber(out + session, id, 8);
    r := AppendNumber(r, revision, 8);
    forall rest: Bytes ensures out + Correlation(session, id, revision, rest) == r + rest {
      Nest4(out, session, PutNumber(id, 8), PutNumber(revision, 8), rest);
    }
  }

  method PredictPayload(m: Message) returns (r: Option<Bytes>)
    requires m.PredictRequest?
    ensures r == if Encodable(m) then Some(Body(m)) else None
  {
    hide IsZero, DecodeUtf16, PaddingEncodable, PutCounted, PutText, Correlation;
    if IsZero(m.sessionId) || m.requestId == 0 {
      return None;
    }
    var head := AppendCorrelation([2], m.sessionId, m.requestId, m.bufferRevision);
    var context := AppendText16(head, m.context, MAX_CONTEXT);
    if context.None? {
      return None;
    }
    Associative(head, PutText(m.context), PutCounted(m.padding, PutPadding));
    r := AppendPadding(context.value, m.padding);
  }

  method PredictionPayload(m: Message) returns (r: Option<Bytes>)
    requires m.Prediction?
    ensures r == if Encodable(m) then Some(Body(m)) else None
  {
    hide IsZero, ListEncodable, PutCounted, Correlation;
    if IsZero(m.sessionId) || m.requestId == 0 {
      return None;
    }
    var head := AppendCorrelation([3], m.sessionId, m.requestId, m.bufferRevision);
    r := AppendCandidates(head, m.candidates);
  }

  method ErrorPayload(side: Side, m: Message) returns (r: Option<Bytes>)
    requires m.Error?
    ensures r == if Encodable(m) then Some(Body(m)) else None
  {
    hide Utf8Octets, PutUtf8, Correlation;
    if m.code < 1 || m.code > 9 {
      return None;
    }
    var code := AppendNumber([7], m.code, 1);
    var head := AppendCorrelation(code, m.sessionId, m.requestId, m.bufferRevision);
    Associative([7], PutNumber(m.code, 1), Correlation(m.sessionId, m.requestId, m.bufferRevision, PutUtf8(m.message)));
    r := AppendText8(side, head, m.message);
  }

  method CommitPayload(c: Commit) returns (r: Option<Bytes>)
    ensures r == if CommitEncodable(c) then Some([8, 0] + PutCommit(c)) else None
  {
    hide IsZero, DecodeUtf16, EntryEncodable, PutCounted, PutText;
    if IsZero(c.eventId) || IsZero(c.sourceId) || c.entries == [] || |c.entries| > MAX_COMMIT_ENTRIES || c.answer == [] {
      return None;
    }
    var head := [8, 0] + c.eventId + c.sourceId;
    var context := AppendText16(head, c.context, MAX_COMMIT_CONTEXT);
    if context.None? {
      return None;
    }
    var answer := AppendText16(context.value, c.answer, MAX_COMMIT_ANSWER);
    if answer.None? {
      return None;
    }
    Nest5([8, 0], c.eventId, c.sourceId, PutText(c.context), PutText(c.answer), PutCounted(c.entries, PutEntry));
    r := AppendEntries(answer.value, c.entries);
  }

  method AppendStatus(out: Bytes, s: SessionStatus) returns (r: Bytes)
    ensures r == out + PutStatus(s)
  {
    hide PutBool, PutNumber;
    r := AppendNumber(out + s.sessionId + PutBool(s.active) + PutBool(s.closing) + PutBool(s.engineLoaded), s.lastRequestId, 8);
    Nest5(out, s.sessionId, PutBool(s.active), PutBool(s.closing), PutBool(s.engineLoaded), PutNumber(s.lastRequestId, 8));
  }

  method StatusPayload(m: Message) returns (r: Bytes)
    requires m.StatusResponse?
    ensures r == Body(m)
  {
    hide PutBool, PutNumber, PutStatus;
    var head := [5, 1] + m.serviceEpoch + PutBool(m.shuttingDown) + PutBool(m.modelLoaded);
    var active := AppendNumber(head, m.activeSessions, 4);
    var limits := AppendNumber(active, m.maxSessions, 4);
    ghost var tail := if m.status.Some? then [1] + PutStatus(m.status.value) else [0];
    Nest6([5, 1], m.serviceEpoch, PutBool(m.shuttingDown), PutBool(m.modelLoaded), PutNumber(m.activeSessions, 4), PutNumber(m.maxSessions, 4), tail);
    if m.status.None? {
      return limits + [0];
    }
    Associative(limits, [1], PutStatus(m.status.value));
    r := AppendStatus(limits + [1], m.status.value);
  }

  /** The messages whose payload is an id, a flag, or both. */
  method SmallPayload(m: Message) returns (r: Option<Bytes>)
    requires !m.PredictRequest? && !m.Prediction? && !m.Error? && !m.StatusResponse? && !m.RecordCommitRequest?
    ensures r == if Encodable(m) then Some(Body(m)) else None
  {
    hide IsZero, PutBool;
    match m {
      case OpenSessionRequest => return Some([1, 0]);
      case OpenSessionResponse(session, epoch) =>
        Associative([1, 1], session, epoch);
        return Some([1, 1] + session + epoch);
      case CloseSessionRequest(session) =>
        return if IsZero(session) then None else Some([4, 0] + session);
      case CloseSessionResponse(session, closed) =>
        Associative([4, 1], session, PutBool(closed));
        return if IsZero(session) then None else Some([4, 1] + session + PutBool(closed));
      case StatusRequest(session) =>
        if session.None? {
          return Some([5, 0] + [0]);
        }
        Associative([5, 0], [1], session.value);
        return Some([5, 0] + [1] + session.value);
      case ShutdownRequest => return Some([6, 0]);
      case ShutdownResponse(accepted) => return Some([6, 1] + PutBool(accepted));
      case RecordCommitResponse(event, stored) =>
        Associative([8, 1], event, PutBool(stored));
        return Some([8, 1] + event + PutBool(stored));
      case DiscardCommitRequest(event) =>
        return if IsZero(event) then None else Some([9, 0] + event);
      case DiscardCommitResponse(event, discarded) =>
        Associative([9, 1], event, PutBool(discarded));
        return if IsZero(event) then None else Some([9, 1] + event + PutBool(discarded));
    }
  }

  /** Encodes a message; None where the source refuses it. */
  method EncodeFrame(side: Side, m: Message) returns (r: Option<Bytes>)
    ensures r == Encode(m)
  {
    hide Encodable, Body;
    var payload: Option<Bytes>;
    match m {
      case PredictRequest(_, _, _, _, _) => payload := PredictPayload(m);
      case Prediction(_, _, _, _) => payload := PredictionPayload(m);
      case Error(_, _, _, _, _) => payload := ErrorPayload(side, m);
      case StatusResponse(_, _, _, _, _, _) =>
        StatusIsEncodable(m);
        var status := StatusPayload(m);
        payload := Some(status);
      case RecordCommitRequest(commit) =>
        CommitBody(m);
        payload := CommitPayload(commit);
      case _ => payload := SmallPayload(m);
    }
    if payload.None? || |payload.value| > MAX_FRAME {
      return None;
    }
    var header := AppendNumber([], |payload.value|, 4);
    NothingAdded(PutNumber(|payload.value|, 4));
    return Some(header + payload.value);
  }

  lemma StatusIsEncodable(m: Message)
    ensures m.StatusResponse? ==> Encodable(m)
  {
  }

  lemma CommitBody(m: Message)
    requires m.RecordCommitRequest?
    ensures Encodable(m) == CommitEncodable(m.commit) && Body(m) == [8, 0] + PutCommit(m.commit)
  {
  }
}
