/** Stored phrase overrides and their text file (engine/src/phrase_override/phrase_override_store.cpp). */
module PhraseStore {
  import opened Wrappers
  import opened Sequences
  import opened Utf

  type Text = seq<Unit>
  type Bytes = seq<Byte>

  const MIN_READINGS := 2
  const MAX_READINGS := 8
  const IDEOGRAPHIC_SPACE: Scalar := 0x3000

  datatype Record = Record(phrase: Text, readings: seq<Text>)

  // ----- keys -----

  function TrimLeft(t: Text): Text {
    if t != [] && t[0] == 0x20 then TrimLeft(t[1..]) else t
  }

  function TrimRight(t: Text): Text {
    if t != [] && t[|t| - 1] == 0x20 then TrimRight(t[..|t| - 1]) else t
  }

  function Trimmed(t: Text): Text {
    TrimRight(TrimLeft(t))
  }

  predicate IsBlank(b: Byte) {
    b == 0x20 || b == 0x09 || b == 0x0D || b == 0x0A
  }

  predicate IsDash(b: Byte) { b == 0x2D }

  /** The bytes of one reading in a key; None when the key cannot hold it. */
  function KeyPart(reading: Text): Option<Bytes> {
    if Trimmed(reading) == [] then None
    else
      match Utf16ToUtf8(Trimmed(reading))
      case None => None
      case Some(utf8) => if exists i :: 0 <= i < |utf8| && (IsDash(utf8[i]) || IsBlank(utf8[i])) then None else Some(utf8)
  }

  function KeyParts(readings: seq<Text>): Option<seq<Bytes>> {
    if readings == [] then Some([])
    else
      match (KeyPart(readings[0]), KeyParts(readings[1..]))
      case (Some(first), Some(rest)) => Some([first] + rest)
      case _ => None
  }

  /** The parts separated by single dashes. */
  function Joined(parts: seq<Bytes>): Bytes {
    if parts == [] then []
    else if |parts| == 1 then parts[0]
    else parts[0] + [0x2D] + Joined(parts[1..])
  }

  function ReadingKey(readings: seq<Text>): Option<Bytes> {
    if |readings| < MIN_READINGS || |readings| > MAX_READINGS then None
    else
      match KeyParts(readings)
      case None => None
      case Some(parts) => Some(Joined(parts))
  }

  method TrimReading(reading: Text) returns (t: Text)
    ensures t == Trimmed(reading)
  {
    t := reading;
    while t != [] && t[0] == 0x20
      invariant TrimLeft(reading) == TrimLeft(t)
      decreases |t|
    {
      t := t[1..];
    }
    while t != [] && t[|t| - 1] == 0x20
      invariant TrimRight(TrimLeft(reading)) == TrimRight(t)
      decreases |t|
    {
      t := t[..|t| - 1];
    }
  }

  /** Builds the key reading by reading. */
  method BuildReadingKey(readings: seq<Text>) returns (key: Option<Bytes>)
    ensures key == ReadingKey(readings)
  {
    if |readings| < MIN_READINGS || |readings| > MAX_READINGS {
      return None;
    }
    var text: Bytes := [];
    ghost var done: seq<Bytes> := [];
    var i := 0;
    Whole(readings);
    PrependNone([], KeyParts(readings));
    while i < |readings|
      invariant 0 <= i <= |readings| && |done| == i && text == Joined(done)
      invariant KeyParts(readings) == PrependParts(done, KeyParts(readings[i..]))
    {
      PushOne(readings, i);
      PartsStep(done, readings[i..]);
      var reading := TrimReading(readings[i]);
      if reading == [] {
        return None;
      }
      var utf8 := U16ToUtf8(reading);
      if utf8.None? {
        return None;
      }
      if exists k :: 0 <= k < |utf8.value| && (IsDash(utf8.value[k]) || IsBlank(utf8.value[k])) {
        return None;
      }
      JoinedPush(done, utf8.value);
      if i != 0 {
        text := text + [0x2D];
      }
      text := text + utf8.value;
      done := done + [utf8.value];
      i := i + 1;
    }
    PrependNone(done, Some([]));
    Whole(readings);
    return Some(text);
  }

  function PrependParts(done: seq<Bytes>, rest: Option<seq<Bytes>>): Option<seq<Bytes>> {
    match rest
    case None => None
    case Some(parts) => Some(done + parts)
  }

  lemma PrependNone(done: seq<Bytes>, rest: Option<seq<Bytes>>)
    ensures PrependParts([], rest) == rest
    ensures PrependParts(done, Some([])) == Some(done)
  {
    NothingAdded(done);
    if rest.Some? {
      NothingAdded(rest.value);
    }
  }

  lemma {:induction false} PartsStep(done: seq<Bytes>, readings: seq<Text>)
    requires readings != []
    ensures KeyPart(readings[0]).None? ==> PrependParts(done, KeyParts(readings)).None?
    ensures KeyPart(readings[0]).Some? ==>
      PrependParts(done, KeyParts(readings)) == PrependParts(done + [KeyPart(readings[0]).value], KeyParts(readings[1..]))
  {
    hide KeyPart;
    if KeyPart(readings[0]).Some? && KeyParts(readings[1..]).Some? {
      Associative(done, [KeyPart(readings[0]).value], KeyParts(readings[1..]).value);
    }
  }

  lemma {:induction false} JoinedPush(parts: seq<Bytes>, last: Bytes)
    ensures Joined(parts + [last]) == if parts == [] then last else Joined(parts) + [0x2D] + last
  {
    if parts == [] {
    } else if |parts| == 1 {
      TailOfSum(parts, [last]);
    } else {
      TailOfSum(parts, [last]);
      JoinedPush(parts[1..], last);
      Associative(parts[0] + [0x2D], Joined(parts[1..]), [0x2D] + last);
      Associative(Joined(parts[1..]), [0x2D], last);
      Associative(Joined(parts), [0x2D], last);
    }
  }

  // ----- keys name their readings -----

  predicate NoDash(part: Bytes) {
    forall i :: 0 <= i < |part| ==> !IsDash(part[i])
  }

  lemma PartHasNoSeparator(reading: Text)
    requires KeyPart(reading).Some?
    ensures NoDash(KeyPart(reading).value) && KeyPart(reading).value != []
    ensures Utf8ToUtf16(KeyPart(reading).value) == Some(Trimmed(reading))
    ensures forall i :: 0 <= i < |KeyPart(reading).value| ==> !IsBlank(KeyPart(reading).value[i])
  {
    ConversionsAreInverse(Trimmed(reading), KeyPart(reading).value);
    assert Utf8ToUtf16([]) == Some([]);
  }

  lemma {:induction false} PartsHaveNoDash(readings: seq<Text>)
    requires KeyParts(readings).Some?
    ensures var parts := KeyParts(readings).value;
      |parts| == |readings| && forall i :: 0 <= i < |parts| ==> NoDash(parts[i]) && KeyPart(readings[i]) == Some(parts[i])
  {
    hide KeyPart, NoDash;
    if readings != [] {
      PartsHaveNoDash(readings[1..]);
      PartHasNoSeparator(readings[0]);
    }
  }

  /** A first part ends at the first dash. */
  lemma FirstDash(a: Bytes, x: Bytes, b: Bytes, y: Bytes)
    requires NoDash(a) && NoDash(b) && (x == [] || IsDash(x[0])) && (y == [] || IsDash(y[0])) && a + x == b + y
    ensures a == b && x == y
  {
    NotShorter(a, x, b, y);
    NotShorter(b, y, a, x);
    Parts(a, x);
    Parts(b, y);
  }

  lemma NotShorter(a: Bytes, x: Bytes, b: Bytes, y: Bytes)
    requires NoDash(b) && (x == [] || IsDash(x[0])) && a + x == b + y
    ensures |a| >= |b|
  {
    var whole := a + x;
    assert |whole| > |a| ==> IsDash(whole[|a|]);
    assert forall i :: 0 <= i < |b| ==> whole[i] == b[i];
  }

  function Rest(parts: seq<Bytes>): Bytes
    requires parts != []
  {
    if |parts| == 1 then [] else [0x2D] + Joined(parts[1..])
  }

  lemma {:induction false} JoinedFirst(parts: seq<Bytes>)
    requires parts != []
    ensures Joined(parts) == parts[0] + Rest(parts)
  {
    if |parts| == 1 {
      NothingAdded(parts[0]);
    } else {
      Associative(parts[0], [0x2D], Joined(parts[1..]));
    }
  }

  lemma {:induction false} JoinedInjective(a: seq<Bytes>, b: seq<Bytes>)
    requires a != [] && b != [] && Joined(a) == Joined(b)
    requires forall i :: 0 <= i < |a| ==> NoDash(a[i])
    requires forall i :: 0 <= i < |b| ==> NoDash(b[i])
    ensures a == b
  {
    hide NoDash, Joined;
    JoinedFirst(a);
    JoinedFirst(b);
    FirstDash(a[0], Rest(a), b[0], Rest(b));
    if |a| > 1 && |b| > 1 {
      Parts([0x2D], Joined(a[1..]));
      Parts([0x2D], Joined(b[1..]));
      JoinedInjective(a[1..], b[1..]);
      assert a == [a[0]] + a[1..] && b == [b[0]] + b[1..];
    }
  }

  /** A key determines its readings, up to the blanks that are trimmed. */
  lemma KeyIsInjective(a: seq<Text>, b: seq<Text>)
    requires ReadingKey(a).Some? && ReadingKey(a) == ReadingKey(b)
    ensures |a| == |b| && forall i :: 0 <= i < |a| ==> Trimmed(a[i]) == Trimmed(b[i])
  {
    hide KeyPart, NoDash, Trimmed;
    PartsHaveNoDash(a);
    PartsHaveNoDash(b);
    JoinedInjective(KeyParts(a).value, KeyParts(b).value);
    forall i | 0 <= i < |a| ensures Trimmed(a[i]) == Trimmed(b[i]) {
      PartHasNoSeparator(a[i]);
      PartHasNoSeparator(b[i]);
    }
  }

  // ----- separators of a stored line -----

  /** The length of the reading separator at `index`, 0 when there is none. */
  function SeparatorLength(text: Bytes, index: nat): (n: nat)
    ensures index + n <= |text| || n == 0
  {
    if index >= |text| then 0
    else if IsDash(text[index]) || IsBlank(text[index]) then 1
    else if index + 3 <= |text| && text[index] == 0xE3 && text[index + 1] == 0x80 && text[index + 2] == 0x80 then 3
    else 0
  }

  /** The end of the run without separators that starts at `index`. */
  function RunEnd(text: Bytes, index: nat): (end: nat)
    requires index <= |text|
    ensures index <= end <= |text| && (end < |text| ==> SeparatorLength(text, end) > 0)
    ensures forall k :: index <= k < end ==> SeparatorLength(text, k) == 0
    decreases |text| - index
  {
    if index < |text| && SeparatorLength(text, index) == 0 then RunEnd(text, index + 1) else index
  }

  /** The readings from `index` on; None when one of them is not UTF-8. */
  function Readings(text: Bytes, index: nat): Option<seq<Text>>
    requires index <= |text|
    decreases |text| - index
  {
    if index == |text| then Some([])
    else if SeparatorLength(text, index) > 0 then Readings(text, index + SeparatorLength(text, index))
    else
      match (Utf8ToUtf16(text[index..RunEnd(text, index)]), Readings(text, RunEnd(text, index)))
      case (Some(first), Some(rest)) => Some([first] + rest)
      case _ => None
  }

  function SplitReadings(text: Bytes): Option<seq<Text>> {
    match Readings(text, 0)
    case None => None
    case Some(readings) => if readings == [] then None else Some(readings)
  }

  function PrependTexts(done: seq<Text>, rest: Option<seq<Text>>): Option<seq<Text>> {
    match rest
    case None => None
    case Some(texts) => Some(done + texts)
  }

  lemma {:induction false} ReadingsStep(text: Bytes, index: nat, done: seq<Text>)
    requires index < |text| && SeparatorLength(text, index) == 0
    ensures var end := RunEnd(text, index);
      && index < end
      && (Utf8ToUtf16(text[index..end]).None? ==> PrependTexts(done, Readings(text, index)).None?)
      && (Utf8ToUtf16(text[index..end]).Some? ==>
            PrependTexts(done, Readings(text, index)) == PrependTexts(done + [Utf8ToUtf16(text[index..end]).value], Readings(text, end)))
  {
    hide Utf8ToUtf16;
    var end := RunEnd(text, index);
    if Utf8ToUtf16(text[index..end]).Some? && Readings(text, end).Some? {
      Associative(done, [Utf8ToUtf16(text[index..end]).value], Readings(text, end).value);
    }
  }

  method Split(text: Bytes) returns (r: Option<seq<Text>>)
    ensures r == SplitReadings(text)
  {
    hide Utf8ToUtf16, SeparatorLength;
    var readings: seq<Text> := [];
    var index := 0;
    if Readings(text, 0).Some? {
      NothingAdded(Readings(text, 0).value);
    }
    while index < |text|
      invariant 0 <= index <= |text|
      invariant Readings(text, 0) == PrependTexts(readings, Readings(text, index))
      decreases |text| - index
    {
      var separator := SeparatorLength(text, index);
      if separator != 0 {
        index := index + separator;
        continue;
      }
      ReadingsStep(text, index, readings);
      var end := index;
      while end < |text| && SeparatorLength(text, end) == 0
        invariant index <= end <= |text| && RunEnd(text, index) == RunEnd(text, end)
      {
        end := end + 1;
      }
      var reading := Utf.Utf8ToU16(text[index..end]);
      if reading.None? {
        return None;
      }
      readings := readings + [reading.value];
      index := end;
    }
    NothingAdded(readings);
    return if readings == [] then None else Some(readings);
  }

  // ----- lines -----

  /** The first blank of the kinds that separate a phrase from its readings. */
  function FirstGap(line: Bytes, index: nat): (end: nat)
    requires index <= |line|
    ensures index <= end <= |line|
    ensures forall k :: index <= k < end ==> line[k] != 0x20 && line[k] != 0x09
    ensures end < |line| ==> line[end] == 0x20 || line[end] == 0x09
    decreases |line| - index
  {
    if index < |line| && line[index] != 0x20 && line[index] != 0x09 then FirstGap(line, index + 1) else index
  }

  function GapEnd(line: Bytes, index: nat): (end: nat)
    requires index <= |line|
    ensures index <= end <= |line|
    ensures forall k :: index <= k < end ==> line[k] == 0x20 || line[k] == 0x09
    ensures end < |line| ==> line[end] != 0x20 && line[end] != 0x09
    decreases |line| - index
  {
    if index < |line| && (line[index] == 0x20 || line[index] == 0x09) then GapEnd(line, index + 1) else index
  }

  function WithoutReturn(line: Bytes): Bytes {
    if line != [] && line[|line| - 1] == 0x0D then line[..|line| - 1] else line
  }

  function ParseLine(input: Bytes): Option<Record> {
    var line := WithoutReturn(input);
    var separator := FirstGap(line, 0);
    if separator == |line| || GapEnd(line, separator) == |line| then None
    else
      match (SplitReadings(line[GapEnd(line, separator)..]), Utf8ToUtf16(line[..separator]))
      case (Some(readings), Some(phrase)) => if ReadingKey(readings).None? then None else Some(Record(phrase, readings))
      case _ => None
  }

  function FormatLine(phrase: Text, key: Bytes): Option<Bytes> {
    match Utf16ToUtf8(phrase)
    case None => None
    case Some(utf8) => Some(utf8 + [0x20] + key)
  }

  predicate ValidEntry(phrase: Text, count: nat) {
    match Utf16ToUtf8(phrase)
    case None => false
    case Some(utf8) =>
      (forall i :: 0 <= i < |utf8| ==> !IsBlank(utf8[i])) && MIN_READINGS <= count <= MAX_READINGS &&
      DecodeUtf8(utf8).Some? && |DecodeUtf8(utf8).value| == count
  }

  method Parse(input: Bytes) returns (r: Option<Record>)
    ensures r == ParseLine(input)
  {
    hide Utf8ToUtf16, SplitReadings, ReadingKey;
    var line := input;
    if line != [] && line[|line| - 1] == 0x0D {
      line := line[..|line| - 1];
    }
    var separator := 0;
    while separator < |line| && line[separator] != 0x20 && line[separator] != 0x09
      invariant 0 <= separator <= |line| && FirstGap(line, 0) == FirstGap(line, separator)
    {
      separator := separator + 1;
    }
    if separator >= |line| {
      return None;
    }
    var begin := separator;
    while begin < |line| && (line[begin] == 0x20 || line[begin] == 0x09)
      invariant separator <= begin <= |line| && GapEnd(line, separator) == GapEnd(line, begin)
    {
      begin := begin + 1;
    }
    if begin >= |line| {
      return None;
    }
    var readings := Split(line[begin..]);
    if readings.None? {
      return None;
    }
    var phrase := Utf.Utf8ToU16(line[..separator]);
    if phrase.None? {
      return None;
    }
    var key := BuildReadingKey(readings.value);
    if key.None? {
      return None;
    }
    return Some(Record(phrase.value, readings.value));
  }
}
