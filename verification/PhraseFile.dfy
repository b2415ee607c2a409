/** Printing the phrase overrides and loading them back (engine/src/phrase_override/phrase_override_store.cpp). */
module PhraseFile {
  import opened Wrappers
  import opened Sequences
  import opened Utf
  import opened PhraseStore

  // ----- the ideographic space inside UTF-8 text -----

  /** The bytes E3 80 80 start at `k`. */
  predicate SpaceAt(text: Bytes, k: nat) {
    k + 3 <= |text| && text[k] == 0xE3 && text[k + 1] == 0x80 && text[k + 2] == 0x80
  }

  lemma SpaceIsOneChar(c: Scalar, rest: Bytes, k: nat)
    requires k < |EncodeUtf8(c)| && SpaceAt(EncodeUtf8(c) + rest, k)
    ensures k == 0 && c == IDEOGRAPHIC_SPACE
  {
    EncodeShape(c);
    assert (EncodeUtf8(c) + rest)[k] == EncodeUtf8(c)[k];
    assert !IsTail(0xE3);
    EncodeIsChar(c, rest);
    assert k == 0;
    var s := EncodeUtf8(c) + rest;
    assert CharLength(s) == 3;
    assert CharValue(s, 3) == 0x3000;
  }

  /** In UTF-8 the three bytes of an ideographic space only occur where that character is. */
  lemma {:induction false} SpaceIsACharacter(cs: seq<Scalar>, rest: Bytes, k: nat)
    requires k < |Utf8(cs)| && SpaceAt(Utf8(cs) + rest, k)
    ensures IDEOGRAPHIC_SPACE in cs
  {
    var head, tail := EncodeUtf8(cs[0]), Utf8(cs[1..]);
    Associative(head, tail, rest);
    hide EncodeUtf8;
    if k < |head| {
      SpaceIsOneChar(cs[0], tail + rest, k);
      assert cs[0] in cs;
    } else {
      var whole := Utf8(cs) + rest;
      Parts(head, tail + rest);
      assert whole[|head|..] == tail + rest;
      assert SpaceAt(tail + rest, k - |head|) by {
        assert (tail + rest)[k - |head|] == whole[k];
        assert (tail + rest)[k - |head| + 1] == whole[k + 1];
        assert (tail + rest)[k - |head| + 2] == whole[k + 2];
      }
      SpaceIsACharacter(cs[1..], rest, k - |head|);
    }
  }

  lemma {:induction false} CharacterIsASpace(cs: seq<Scalar>)
    requires IDEOGRAPHIC_SPACE in cs
    ensures exists k :: 0 <= k < |Utf8(cs)| && SpaceAt(Utf8(cs), k)
  {
    var head, tail := EncodeUtf8(cs[0]), Utf8(cs[1..]);
    if cs[0] == IDEOGRAPHIC_SPACE {
      assert head == [0xE3, 0x80, 0x80];
      assert SpaceAt(Utf8(cs), 0);
    } else {
      CharacterIsASpace(cs[1..]);
      var k :| 0 <= k < |tail| && SpaceAt(tail, k);
      assert forall i :: 0 <= i < |tail| ==> (head + tail)[|head| + i] == tail[i];
      assert SpaceAt(Utf8(cs), |head| + k);
    }
  }

  predicate HasSpace(t: Text) {
    0x3000 in t
  }

  lemma {:induction false} SpaceInUnits(cs: seq<Scalar>)
    ensures HasSpace(Utf16(cs)) <==> IDEOGRAPHIC_SPACE in cs
  {
    if cs != [] {
      SpaceInUnits(cs[1..]);
      var head := EncodeUtf16(cs[0]);
      assert HasSpace(head) <==> cs[0] == IDEOGRAPHIC_SPACE;
      assert HasSpace(head + Utf16(cs[1..])) <==> HasSpace(head) || HasSpace(Utf16(cs[1..]));
      assert IDEOGRAPHIC_SPACE in cs <==> cs[0] == IDEOGRAPHIC_SPACE || IDEOGRAPHIC_SPACE in cs[1..];
    }
  }

  /** A text has an ideographic space exactly when its bytes show one. */
  lemma SpaceInBytes(t: Text, utf8: Bytes)
    requires Utf8ToUtf16(utf8) == Some(t)
    ensures HasSpace(t) <==> exists k :: 0 <= k < |utf8| && SpaceAt(utf8, k)
  {
    Utf8OfDecode(utf8);
    var cs := DecodeUtf8(utf8).value;
    SpaceInUnits(cs);
    if HasSpace(t) {
      CharacterIsASpace(cs);
    }
    forall k | 0 <= k < |utf8| && SpaceAt(utf8, k) ensures HasSpace(t) {
      NothingAdded(utf8);
      SpaceIsACharacter(cs, [], k);
    }
  }

  // ----- what splitting returns -----

  predicate Clean(readings: seq<Text>) {
    forall i :: 0 <= i < |readings| ==> !HasSpace(readings[i])
  }

  /** No reading that splitting returns holds an ideographic space, nor a blank to trim. */
  lemma {:induction false} SplitIsClean(text: Bytes, index: nat)
    requires index <= |text| && Readings(text, index).Some?
    ensures Clean(Readings(text, index).value)
    ensures forall i :: 0 <= i < |Readings(text, index).value| ==> Trimmed(Readings(text, index).value[i]) == Readings(text, index).value[i]
    decreases |text| - index
  {
    hide Trimmed, HasSpace, Utf8ToUtf16, SeparatorLength;
    if index < |text| {
      if SeparatorLength(text, index) > 0 {
        SplitIsClean(text, index + SeparatorLength(text, index));
      } else {
        var end := RunEnd(text, index);
        SplitIsClean(text, end);
        RunIsClean(text, index, end, Utf8ToUtf16(text[index..end]).value);
      }
    }
  }

  lemma RunIsClean(text: Bytes, index: nat, end: nat, t: Text)
    requires index <= end <= |text| && Utf8ToUtf16(text[index..end]) == Some(t)
    requires forall k :: index <= k < end ==> SeparatorLength(text, k) == 0
    ensures !HasSpace(t) && Trimmed(t) == t
  {
    hide Utf8ToUtf16;
    var run := text[index..end];
    SpaceInBytes(t, run);
    forall k | 0 <= k < |run| ensures !SpaceAt(run, k) && run[k] != 0x20 {
      assert SeparatorLength(text, index + k) == 0;
    }
    BlankInBytes(t, run);
  }

  lemma {:induction false} UnitBlank(cs: seq<Scalar>)
    ensures 0x20 in Utf16(cs) ==> 0x20 in Utf8(cs)
  {
    if cs != [] {
      UnitBlank(cs[1..]);
      assert 0x20 in EncodeUtf16(cs[0]) ==> EncodeUtf8(cs[0]) == [0x20];
      assert 0x20 in Utf16(cs) ==> 0x20 in EncodeUtf16(cs[0]) || 0x20 in Utf16(cs[1..]);
      assert 0x20 in EncodeUtf8(cs[0]) || 0x20 in Utf8(cs[1..]) ==> 0x20 in Utf8(cs);
    }
  }

  lemma BlankInBytes(t: Text, utf8: Bytes)
    requires Utf8ToUtf16(utf8) == Some(t) && forall k :: 0 <= k < |utf8| ==> utf8[k] != 0x20
    ensures Trimmed(t) == t
  {
    Utf8OfDecode(utf8);
    UnitBlank(DecodeUtf8(utf8).value);
    assert 0x20 !in utf8;
    NothingToTrim(t);
  }

  lemma NothingToTrim(t: Text)
    requires 0x20 !in t
    ensures Trimmed(t) == t
  {
    assert t != [] ==> t[0] in t && t[|t| - 1] in t;
  }

  lemma {:induction false} TrimKeepsSpaces(t: Text)
    ensures HasSpace(TrimLeft(t)) <==> HasSpace(t)
    ensures HasSpace(TrimRight(t)) <==> HasSpace(t)
    decreases |t|
  {
    if t != [] {
      TrimKeepsSpaces(t[1..]);
      TrimKeepsSpaces(t[..|t| - 1]);
      assert HasSpace(t) <==> t[0] == 0x3000 || HasSpace(t[1..]);
      assert HasSpace(t) <==> HasSpace(t[..|t| - 1]) || t[|t| - 1] == 0x3000;
    }
  }

  // ----- splitting a key -----

  function TrimAll(readings: seq<Text>): seq<Text> {
    if readings == [] then [] else [Trimmed(readings[0])] + TrimAll(readings[1..])
  }

  lemma PartFacts(reading: Text)
    requires KeyPart(reading).Some?
    ensures var part := KeyPart(reading).value;
      && part != [] && Utf8ToUtf16(part) == Some(Trimmed(reading))
      && Trimmed(Trimmed(reading)) == Trimmed(reading) && KeyPart(Trimmed(reading)) == KeyPart(reading)
      && (forall i :: 0 <= i < |part| ==> !IsBlank(part[i]) && !IsDash(part[i]))
  {
    PartHasNoSeparator(reading);
    var part := KeyPart(reading).value;
    BlankInBytes(Trimmed(reading), part);
    ConversionsAreInverse(Trimmed(reading), part);
  }

  /** An ideographic space that starts inside a part of a key belongs to that part's reading. */
  lemma SpaceInPart(reading: Text, rest: Bytes, k: nat)
    requires KeyPart(reading).Some? && k < |KeyPart(reading).value| && SpaceAt(KeyPart(reading).value + rest, k)
    ensures HasSpace(reading)
  {
    hide KeyPart;
    PartFacts(reading);
    var part := KeyPart(reading).value;
    Utf8OfDecode(part);
    var cs := DecodeUtf8(part).value;
    SpaceIsACharacter(cs, rest, k);
    SpaceInUnits(cs);
    TrimmedHasSpace(reading);
  }

  lemma TrimmedHasSpace(reading: Text)
    ensures HasSpace(Trimmed(reading)) <==> HasSpace(reading)
  {
    TrimKeepsSpaces(reading);
    TrimKeepsSpaces(TrimLeft(reading));
  }

  lemma RunIsPart(text: Bytes, index: nat, part: Bytes, rest: Bytes)
    requires index <= |text| && text[index..] == part + rest && part != [] && (rest == [] || IsDash(rest[0]))
    requires forall k :: 0 <= k < |part| ==> !IsBlank(part[k]) && !IsDash(part[k]) && !SpaceAt(part + rest, k)
    ensures SeparatorLength(text, index) == 0 && RunEnd(text, index) == index + |part| && text[index..index + |part|] == part
    ensures rest != [] ==> SeparatorLength(text, index + |part|) == 1
    ensures text[index + |part|..] == rest
  {
    var end := index + |part|;
    forall k | index <= k < end ensures SeparatorLength(text, k) == 0 {
      assert text[k] == text[index..][k - index] == part[k - index];
      CutAt(text, index);
      SpaceMoves(text[..index], part + rest, k - index);
      NoSeparator(text, k);
    }
    DropDrop(text, index, |part|);
    Parts(part, rest);
    TakeOfDrop(text, index, |part|);
    DashFollows(text, end, rest);
    RunEndsAt(text, index, end);
  }

  lemma TakeOfDrop(text: Bytes, index: nat, length: nat)
    requires index + length <= |text|
    ensures text[index..index + length] == text[index..][..length]
  {
  }

  lemma DashFollows(text: Bytes, end: nat, rest: Bytes)
    requires end <= |text| && text[end..] == rest && (rest == [] || IsDash(rest[0]))
    ensures if rest == [] then end == |text| else SeparatorLength(text, end) == 1
  {
    assert |rest| == |text| - end;
    assert rest != [] ==> text[end] == rest[0];
  }

  lemma {:induction false} RunEndsAt(text: Bytes, index: nat, end: nat)
    requires index < end <= |text| && forall k :: index <= k < end ==> SeparatorLength(text, k) == 0
    requires end == |text| || SeparatorLength(text, end) > 0
    ensures RunEnd(text, index) == end && SeparatorLength(text, index) == 0
  {
  }

  lemma NoSeparator(text: Bytes, k: nat)
    requires k < |text| && !IsBlank(text[k]) && !IsDash(text[k]) && !SpaceAt(text, k)
    ensures SeparatorLength(text, k) == 0
  {
  }

  /** A key of readings without ideographic spaces splits into exactly those readings, trimmed. */
  lemma {:induction false} KeySplits(text: Bytes, index: nat, readings: seq<Text>)
    requires index <= |text| && readings != [] && KeyParts(readings).Some? && Clean(readings)
    requires text[index..] == Joined(KeyParts(readings).value)
    ensures Readings(text, index) == Some(TrimAll(readings))
    decreases |readings|
  {
    hide KeyPart, HasSpace, Utf8ToUtf16, SeparatorLength, Trimmed, Joined;
    var parts := KeyParts(readings).value;
    var part := KeyPart(readings[0]).value;
    assert part == parts[0];
    PartsHaveNoDash(readings);
    JoinedFirst(parts);
    PartFacts(readings[0]);
    forall k | 0 <= k < |part| ensures !SpaceAt(part + Rest(parts), k) {
      if SpaceAt(part + Rest(parts), k) {
        SpaceInPart(readings[0], Rest(parts), k);
      }
    }
    RunIsPart(text, index, part, Rest(parts));
    var end := index + |part|;
    assert index < |text|;
    if |readings| > 1 {
      assert parts[1..] == KeyParts(readings[1..]).value;
      DropDrop(text, end, 1);
      Parts([0x2D], Joined(parts[1..]));
      KeySplits(text, end + 1, readings[1..]);
    }
  }

  predicate SpaceInKey(key: Bytes) {
    exists k :: 0 <= k < |key| && SpaceAt(key, k)
  }

  lemma SpaceMoves(part: Bytes, rest: Bytes, k: nat)
    ensures SpaceAt(rest, k) <==> SpaceAt(part + rest, |part| + k)
    ensures SpaceAt(part, k) ==> SpaceAt(part + rest, k)
  {
    assert k + 3 <= |rest| ==> forall j :: k <= j < k + 3 ==> (part + rest)[|part| + j] == rest[j];
    assert k + 3 <= |part| ==> forall j :: k <= j < k + 3 ==> (part + rest)[j] == part[j];
    if SpaceAt(part + rest, |part| + k) {
      assert (part + rest)[|part| + k] == rest[k];
      assert (part + rest)[|part| + k + 1] == rest[k + 1];
      assert (part + rest)[|part| + k + 2] == rest[k + 2];
    }
  }

  /** The bytes of a key show exactly whether one of its readings holds an ideographic space. */
  lemma {:induction false} KeyShowsSpaces(readings: seq<Text>)
    requires KeyParts(readings).Some?
    ensures SpaceInKey(Joined(KeyParts(readings).value)) <==> !Clean(readings)
  {
    hide KeyPart, HasSpace, SpaceAt, Joined;
    if readings == [] {
      assert Joined([]) == [] by {
        JoinedOfNone();
      }
    } else {
      var parts := KeyParts(readings).value;
      var part, rest := parts[0], Rest(parts);
      var key := Joined(parts);
      JoinedFirst(parts);
      PartSpace(readings[0], rest);
      KeyShowsSpaces(readings[1..]);
      RestSpace(parts);
      CleanSplit(readings);
      if SpaceInKey(key) {
        var k :| 0 <= k < |key| && SpaceAt(key, k);
        if k >= |part| {
          SpaceMoves(part, rest, k - |part|);
          assert SpaceInKey(rest);
        }
      }
      if SpaceInKey(rest) {
        var k :| 0 <= k < |rest| && SpaceAt(rest, k);
        SpaceMoves(part, rest, k);
      }
    }
  }

  lemma JoinedOfNone()
    ensures Joined([]) == []
  {
  }

  lemma CleanSplit(readings: seq<Text>)
    requires readings != []
    ensures Clean(readings) <==> !HasSpace(readings[0]) && Clean(readings[1..])
  {
    hide HasSpace;
    assert forall i :: 0 <= i < |readings| - 1 ==> readings[1..][i] == readings[i + 1];
    assert forall i :: 1 <= i < |readings| ==> readings[i] == readings[1..][i - 1];
  }

  lemma PartSpace(reading: Text, rest: Bytes)
    requires KeyPart(reading).Some?
    ensures HasSpace(reading) ==> SpaceInKey(KeyPart(reading).value + rest)
    ensures !HasSpace(reading) ==> forall k :: 0 <= k < |KeyPart(reading).value| ==> !SpaceAt(KeyPart(reading).value + rest, k)
  {
    hide KeyPart;
    var part := KeyPart(reading).value;
    PartFacts(reading);
    TrimmedHasSpace(reading);
    SpaceInBytes(Trimmed(reading), part);
    if HasSpace(reading) {
      var k :| 0 <= k < |part| && SpaceAt(part, k);
      SpaceMoves(part, rest, k);
      assert SpaceAt(part + rest, k);
    }
    forall k | 0 <= k < |part| && SpaceAt(part + rest, k) ensures HasSpace(reading) {
      SpaceInPart(reading, rest, k);
    }
  }

  lemma RestSpace(parts: seq<Bytes>)
    requires parts != []
    ensures SpaceInKey(Rest(parts)) <==> SpaceInKey(Joined(parts[1..]))
  {
    hide Joined;
    var tail := Joined(parts[1..]);
    if |parts| == 1 {
      assert parts[1..] == [];
      JoinedOfNone();
    } else {
      var rest := Rest(parts);
      if SpaceInKey(tail) {
        var k :| 0 <= k < |tail| && SpaceAt(tail, k);
        SpaceMoves([0x2D], tail, k);
        assert SpaceAt(rest, 1 + k);
      }
      if SpaceInKey(rest) {
        var k :| 0 <= k < |rest| && SpaceAt(rest, k);
        assert k > 0;
        SpaceMoves([0x2D], tail, k - 1);
      }
    }
  }

  // ----- one line -----

  const COMMENT: Unit := 0x23

  /** What `load` makes of one line of the file. */
  function LoadLine(line: Bytes): Option<(Bytes, Text)> {
    if line == [] || line[0] == COMMENT then None
    else
      match ParseLine(line)
      case None => None
      case Some(record) =>
        if !ValidEntry(record.phrase, |record.readings|) then None
        else
          match ReadingKey(record.readings)
          case None => None
          case Some(key) => Some((key, record.phrase))
  }

  lemma KeyShape(readings: seq<Text>)
    requires ReadingKey(readings).Some?
    ensures var key := ReadingKey(readings).value;
      key != [] && !IsBlank(key[0]) && !IsBlank(key[|key| - 1])
  {
    hide KeyPart;
    var parts := KeyParts(readings).value;
    PartsHaveNoDash(readings);
    JoinedFirst(parts);
    PartFacts(readings[0]);
    KeyEnd(readings);
  }

  lemma {:induction false} KeyEnd(readings: seq<Text>)
    requires readings != [] && KeyParts(readings).Some?
    ensures var key := Joined(KeyParts(readings).value); key != [] && !IsBlank(key[|key| - 1])
  {
    hide KeyPart;
    var parts := KeyParts(readings).value;
    PartFacts(readings[0]);
    if |readings| > 1 {
      KeyEnd(readings[1..]);
    } else {
      assert parts == [parts[0]];
    }
  }

  /** Where a printed line is cut again. */
  lemma {:induction false} LineCuts(utf8: Bytes, key: Bytes)
    requires key != [] && !IsBlank(key[0]) && !IsBlank(key[|key| - 1])
    requires forall i :: 0 <= i < |utf8| ==> !IsBlank(utf8[i])
    ensures var line := utf8 + [0x20] + key;
      && WithoutReturn(line) == line && FirstGap(line, 0) == |utf8| && GapEnd(line, |utf8|) == |utf8| + 1
      && line[..|utf8|] == utf8 && line[|utf8| + 1..] == key
  {
    var line := utf8 + [0x20] + key;
    assert line[|utf8|] == 0x20 && line[|utf8| + 1] == key[0];
    assert line[|line| - 1] == key[|key| - 1];
    assert forall i :: 0 <= i < |utf8| ==> line[i] == utf8[i];
    assert line[..|utf8|] == utf8;
    assert line[|utf8| + 1..] == key;
  }

  lemma {:induction false} TrimmedKey(readings: seq<Text>)
    requires KeyParts(readings).Some?
    ensures KeyParts(TrimAll(readings)) == KeyParts(readings) && |TrimAll(readings)| == |readings|
  {
    hide KeyPart, Trimmed;
    if readings != [] {
      TrimmedKey(readings[1..]);
      PartFacts(readings[0]);
    }
  }

  lemma {:induction false} TrimmedClean(readings: seq<Text>)
    ensures |TrimAll(readings)| == |readings|
    ensures forall i :: 0 <= i < |readings| ==> TrimAll(readings)[i] == Trimmed(readings[i])
  {
    if readings != [] {
      TrimmedClean(readings[1..]);
    }
  }

  lemma {:induction false} KeyRoundTrip(readings: seq<Text>, key: Bytes)
    requires ReadingKey(readings) == Some(key) && Clean(readings)
    ensures SplitReadings(key) == Some(TrimAll(readings)) && ReadingKey(TrimAll(readings)) == Some(key)
  {
    hide KeyPart, Clean, Readings, Trimmed, Joined;
    Whole(key);
    KeySplits(key, 0, readings);
    TrimmedKey(readings);
  }

  /** Parsing a printed entry recovers the phrase and the trimmed readings, under the same key. */
  lemma {:induction false} ParseUndoesFormat(phrase: Text, readings: seq<Text>, key: Bytes)
    requires ReadingKey(readings) == Some(key) && ValidEntry(phrase, |readings|) && Clean(readings)
    ensures FormatLine(phrase, key).Some?
    ensures ParseLine(FormatLine(phrase, key).value) == Some(Record(phrase, TrimAll(readings)))
    ensures ReadingKey(TrimAll(readings)) == Some(key)
  {
    hide ReadingKey, SplitReadings, Clean, FirstGap, GapEnd, WithoutReturn, Utf16ToUtf8, Utf8ToUtf16, DecodeUtf8;
    var utf8 := Utf16ToUtf8(phrase).value;
    ConversionsAreInverse(phrase, utf8);
    KeyShape(readings);
    LineCuts(utf8, key);
    KeyRoundTrip(readings, key);
  }

  lemma FirstByte(phrase: Text, utf8: Bytes)
    requires Utf8ToUtf16(utf8) == Some(phrase)
    ensures utf8 != [] <==> phrase != []
    ensures utf8 != [] ==> (utf8[0] == COMMENT <==> phrase[0] == COMMENT)
  {
    Utf8OfDecode(utf8);
    var cs := DecodeUtf8(utf8).value;
    if cs != [] {
      assert utf8[0] == EncodeUtf8(cs[0])[0];
      assert phrase[0] == EncodeUtf16(cs[0])[0];
    }
  }

  /** An entry that survives being printed and loaded. */
  predicate Plain(key: Bytes, phrase: Text) {
    (phrase == [] || phrase[0] != COMMENT) && !SpaceInKey(key)
  }

  lemma ValidIsNotEmpty(phrase: Text, count: nat)
    requires ValidEntry(phrase, count)
    ensures phrase != [] && Utf16ToUtf8(phrase).Some? && Utf16ToUtf8(phrase).value != []
    ensures Utf8ToUtf16(Utf16ToUtf8(phrase).value) == Some(phrase)
  {
    var utf8 := Utf16ToUtf8(phrase).value;
    ConversionsAreInverse(phrase, utf8);
    assert DecodeUtf8([]) == Some([]);
    assert utf8 != [];
    FirstByte(phrase, utf8);
  }

  /** Whatever a line holds, what it loads is plain: its phrase is no comment and its key has no ideographic space. */
  lemma LoadedIsPlain(line: Bytes)
    requires LoadLine(line).Some?
    ensures Plain(LoadLine(line).value.0, LoadLine(line).value.1)
  {
    hide KeyParts, Clean, Readings, Utf8ToUtf16, Utf16ToUtf8, ValidEntry, SpaceInKey, GapEnd, FirstGap;
    var record := ParseLine(line).value;
    var shorter := WithoutReturn(line);
    var separator := FirstGap(shorter, 0);
    var rest := shorter[GapEnd(shorter, separator)..];
    assert Readings(rest, 0).value == record.readings;
    SplitIsClean(rest, 0);
    KeyShowsSpaces(record.readings);
    ValidIsNotEmpty(record.phrase, |record.readings|);
    FirstByte(record.phrase, shorter[..separator]);
    assert separator > 0 ==> shorter[..separator][0] == line[0];
  }

  /** A printed entry is loaded back unchanged exactly when it is plain. */
  lemma LoadUndoesPrint(phrase: Text, readings: seq<Text>, key: Bytes)
    requires ReadingKey(readings) == Some(key) && ValidEntry(phrase, |readings|)
    ensures FormatLine(phrase, key).Some?
    ensures LoadLine(FormatLine(phrase, key).value) == Some((key, phrase)) <==> phrase[0] != COMMENT && Clean(readings)
    ensures Clean(readings) <==> !SpaceInKey(key)
  {
    hide KeyParts, Clean, ParseLine, Utf8ToUtf16, Utf16ToUtf8, SpaceInKey;
    ValidIsNotEmpty(phrase, |readings|);
    KeyShowsSpaces(readings);
    var line := FormatLine(phrase, key).value;
    if LoadLine(line) == Some((key, phrase)) {
      LoadedIsPlain(line);
    }
    if phrase[0] != COMMENT && Clean(readings) {
      ParseUndoesFormat(phrase, readings, key);
      TrimmedClean(readings);
      FirstByte(phrase, Utf16ToUtf8(phrase).value);
    }
  }
}
