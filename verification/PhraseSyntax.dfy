/** Which readings have a key and how lines may be written
    (engine/src/phrase_override/phrase_override_store.cpp:14-66 and 131-207), told by characters instead of bytes. */
module PhraseSyntax {
  import opened Wrappers
  import opened Sequences
  import opened Utf
  import opened PhraseStore
  import opened PhraseFile

  // ----- ASCII in UTF-8 -----

  lemma AsciiOfOne(c: Scalar, b: Byte)
    requires b < 0x80
    ensures b in EncodeUtf8(c) <==> c == b
    ensures (b as int) in EncodeUtf16(c) <==> c == b
  {
  }

  /** In UTF-8 an ASCII byte occurs exactly where that character does. */
  lemma {:induction false} AsciiIsACharacter(cs: seq<Scalar>, b: Byte)
    requires b < 0x80
    ensures b in Utf8(cs) <==> (b as int) in Utf16(cs)
  {
    hide EncodeUtf8, EncodeUtf16;
    if cs != [] {
      AsciiOfOne(cs[0], b);
      AsciiIsACharacter(cs[1..], b);
      assert b in EncodeUtf8(cs[0]) + Utf8(cs[1..]) <==> b in EncodeUtf8(cs[0]) || b in Utf8(cs[1..]);
      assert (b as int) in EncodeUtf16(cs[0]) + Utf16(cs[1..]) <==> (b as int) in EncodeUtf16(cs[0]) || (b as int) in Utf16(cs[1..]);
    }
  }

  lemma AsciiInText(t: Text, b: Byte)
    requires b < 0x80 && Utf16ToUtf8(t).Some?
    ensures b in Utf16ToUtf8(t).value <==> (b as int) in t
  {
    Utf16OfDecode(t);
    AsciiIsACharacter(DecodeUtf16(t).value, b);
  }

  // ----- which readings have a key -----

  /** A reading that a key can hold: without the blanks around it there is text, and no dash, tab, line end or blank. */
  predicate Keyable(reading: Text) {
    var t := Trimmed(reading);
    t != [] && DecodeUtf16(t).Some? && '-' as int !in t && ' ' as int !in t && '\t' as int !in t && '\r' as int !in t && '\n' as int !in t
  }

  lemma PartExists(reading: Text)
    ensures KeyPart(reading).Some? <==> Keyable(reading)
  {
    hide Trimmed;
    var t := Trimmed(reading);
    if Utf16ToUtf8(t).Some? {
      var utf8 := Utf16ToUtf8(t).value;
      AsciiInText(t, 0x2D);
      AsciiInText(t, 0x20);
      AsciiInText(t, 0x09);
      AsciiInText(t, 0x0D);
      AsciiInText(t, 0x0A);
    }
  }

  lemma {:induction false} PartsExist(readings: seq<Text>)
    ensures KeyParts(readings).Some? <==> forall i :: 0 <= i < |readings| ==> Keyable(readings[i])
  {
    hide KeyPart, Keyable;
    if readings != [] {
      PartExists(readings[0]);
      PartsExist(readings[1..]);
      assert forall i :: 1 <= i < |readings| ==> readings[i] == readings[1..][i - 1];
    }
  }

  /** There is a key for two to eight readings that a key can hold, and for no others. */
  lemma KeyExists(readings: seq<Text>)
    ensures ReadingKey(readings).Some? <==> 2 <= |readings| <= 8 && forall i :: 0 <= i < |readings| ==> Keyable(readings[i])
  {
    hide KeyPart, Keyable;
    PartsExist(readings);
  }

  /** A phrase is valid for as many readings as it has characters, two to eight, if it has no blank, tab or line end. */
  lemma {:induction false} ValidExactly(phrase: Text, count: nat)
    ensures ValidEntry(phrase, count) <==>
      && DecodeUtf16(phrase).Some? && |DecodeUtf16(phrase).value| == count && 2 <= count <= 8
      && ' ' as int !in phrase && '\t' as int !in phrase && '\r' as int !in phrase && '\n' as int !in phrase
  {
    if DecodeUtf16(phrase).Some? {
      AsciiInText(phrase, 0x20);
      AsciiInText(phrase, 0x09);
      AsciiInText(phrase, 0x0D);
      AsciiInText(phrase, 0x0A);
      DecodeOfUtf8(DecodeUtf16(phrase).value);
    }
  }

  // ----- how readings may be written -----

  /** Blank, tab, line ends, dash and the ideographic space separate readings. */
  predicate IsSeparator(s: Bytes) {
    s == [0x20] || s == [0x09] || s == [0x0D] || s == [0x0A] || s == [0x2D] || s == [0xE3, 0x80, 0x80]
  }

  predicate IsGap(gap: seq<Bytes>) {
    forall i :: 0 <= i < |gap| ==> IsSeparator(gap[i])
  }

  function Concat(gap: seq<Bytes>): Bytes {
    if gap == [] then [] else gap[0] + Concat(gap[1..])
  }

  /** A reading and the separators before it. */
  datatype Word = Word(gap: seq<Bytes>, reading: Text)

  /** A reading that no separator cuts. */
  predicate Uncut(reading: Text) {
    Keyable(reading) && Trimmed(reading) == reading && 0x3000 !in reading
  }

  predicate WellWritten(words: seq<Word>) {
    && (forall i :: 0 <= i < |words| ==> IsGap(words[i].gap) && Uncut(words[i].reading))
    && forall i :: 1 <= i < |words| ==> words[i].gap != []
  }

  /** The words with their separators, and more separators behind them. */
  function Written(words: seq<Word>, last: seq<Bytes>): Bytes
    decreases |words|
  {
    if words == [] then Concat(last)
    else Concat(words[0].gap) + (BytesOf(words[0].reading) + Written(words[1..], last))
  }

  function BytesOf(t: Text): Bytes {
    match Utf16ToUtf8(t) case None => [] case Some(utf8) => utf8
  }

  function ReadingsIn(words: seq<Word>): seq<Text> {
    seq(|words|, i requires 0 <= i < |words| => words[i].reading)
  }

  lemma SeparatorSkips(text: Bytes, index: nat, separator: Bytes, rest: Bytes)
    requires index <= |text| && text[index..] == separator + rest && IsSeparator(separator)
    ensures index + |separator| <= |text| && SeparatorLength(text, index) == |separator| && text[index + |separator|..] == rest
  {
    var tail := separator + rest;
    assert forall k :: 0 <= k < |separator| ==> text[index + k] == tail[k] == separator[k];
    DropDrop(text, index, |separator|);
    Parts(separator, rest);
  }

  lemma {:induction false} GapSkips(text: Bytes, index: nat, gap: seq<Bytes>, rest: Bytes)
    requires index <= |text| && text[index..] == Concat(gap) + rest && IsGap(gap)
    ensures index + |Concat(gap)| <= |text| && text[index + |Concat(gap)|..] == rest
    ensures Readings(text, index) == Readings(text, index + |Concat(gap)|)
    decreases |gap|
  {
    hide IsSeparator, SeparatorLength, Utf8ToUtf16;
    if gap == [] {
      NothingAdded(rest);
    } else {
      Associative(gap[0], Concat(gap[1..]), rest);
      SeparatorSkips(text, index, gap[0], Concat(gap[1..]) + rest);
      SeparatorIsSome(gap[0]);
      GapSkips(text, index + |gap[0]|, gap[1..], rest);
    }
  }

  lemma SeparatorIsSome(separator: Bytes)
    requires IsSeparator(separator)
    ensures separator != []
  {
  }

  /** Behind a word comes the end or a separator. */
  predicate Ends(rest: Bytes) {
    rest == [] || SeparatorLength(rest, 0) > 0
  }

  lemma WordEnds(text: Bytes, end: nat, rest: Bytes)
    requires end <= |text| && text[end..] == rest && Ends(rest)
    ensures end == |text| || SeparatorLength(text, end) > 0
  {
    assert |rest| == |text| - end;
    assert forall k :: 0 <= k < |rest| ==> text[end + k] == rest[k];
  }

  lemma WordReads(text: Bytes, index: nat, reading: Text, rest: Bytes)
    requires index <= |text| && Uncut(reading) && text[index..] == BytesOf(reading) + rest && Ends(rest)
    ensures var end := index + |BytesOf(reading)|;
      && index < end <= |text| && text[end..] == rest && SeparatorLength(text, index) == 0 && RunEnd(text, index) == end
      && Utf8ToUtf16(text[index..end]) == Some(reading)
  {
    hide Utf16ToUtf8, Utf8ToUtf16, Keyable, Ends, SpaceAt, IsBlank, IsDash, SeparatorLength, Trimmed;
    PartExists(reading);
    PartFacts(reading);
    var part := KeyPart(reading).value;
    PartIs(reading);
    WordUncut(reading, rest);
    var end := index + |part|;
    forall k | index <= k < end ensures SeparatorLength(text, k) == 0 {
      assert text[k] == text[index..][k - index] == part[k - index];
      CutAt(text, index);
      SpaceMoves(text[..index], part + rest, k - index);
      NoSeparator(text, k);
    }
    DropDrop(text, index, |part|);
    Parts(part, rest);
    TakeOfDrop(text, index, |part|);
    WordEnds(text, end, rest);
    RunEndsAt(text, index, end);
  }

  lemma PartIs(reading: Text)
    requires Uncut(reading)
    ensures Utf16ToUtf8(reading).Some? && KeyPart(reading) == Utf16ToUtf8(reading)
  {
    PartExists(reading);
  }

  lemma WordUncut(reading: Text, rest: Bytes)
    requires Uncut(reading) && KeyPart(reading).Some?
    ensures forall k :: 0 <= k < |KeyPart(reading).value| ==> !SpaceAt(KeyPart(reading).value + rest, k)
  {
    hide KeyPart, Keyable;
    PartSpace(reading, rest);
  }

  lemma {:induction false} WrittenEnds(words: seq<Word>, last: seq<Bytes>)
    requires WellWritten(words) && IsGap(last) && (words != [] ==> words[0].gap != [])
    ensures Ends(Written(words, last))
  {
    hide Uncut, BytesOf;
    var gap := if words == [] then last else words[0].gap;
    var rest := if words == [] then [] else BytesOf(words[0].reading) + Written(words[1..], last);
    if gap != [] {
      var text := Concat(gap) + rest;
      Associative(gap[0], Concat(gap[1..]), rest);
      SeparatorSkips(text, 0, gap[0], Concat(gap[1..]) + rest);
      SeparatorIsSome(gap[0]);
      NothingAdded(Concat(gap));
    }
  }

  lemma {:induction false} WordsRead(text: Bytes, index: nat, words: seq<Word>, last: seq<Bytes>)
    requires WellWritten(words) && IsGap(last) && index <= |text| && text[index..] == Written(words, last)
    ensures Readings(text, index) == Some(ReadingsIn(words))
    decreases |words|
  {
    hide Uncut, BytesOf, Utf8ToUtf16, SeparatorLength, Ends, IsSeparator, Concat;
    if words == [] {
      NothingAdded(Concat(last));
      GapSkips(text, index, last, []);
      assert index + |Concat(last)| == |text|;
    } else {
      var part, tail := BytesOf(words[0].reading), Written(words[1..], last);
      GapSkips(text, index, words[0].gap, part + tail);
      var start := index + |Concat(words[0].gap)|;
      WrittenEnds(words[1..], last);
      WordReads(text, start, words[0].reading, tail);
      WordsRead(text, start + |part|, words[1..], last);
      assert ReadingsIn(words) == [words[0].reading] + ReadingsIn(words[1..]);
    }
  }

  /** Whatever separators stand before, between and behind the readings, they are read. */
  lemma {:induction false} WordsSplit(words: seq<Word>, last: seq<Bytes>)
    requires WellWritten(words) && IsGap(last) && words != []
    ensures SplitReadings(Written(words, last)) == Some(ReadingsIn(words))
  {
    hide Uncut, Written;
    Whole(Written(words, last));
    WordsRead(Written(words, last), 0, words, last);
    assert |ReadingsIn(words)| > 0;
  }
}
