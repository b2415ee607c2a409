/** The fields of the binary protocol as bytes (engine/src/protocol/protocol.cpp and
    ime-unix-service/src/pipe/protocol.cpp): how each is written, how it is read back from the front of the input. */
module Wire {
  import opened Sequences
  import opened Utf
  import opened Messages

  type Bytes = seq<Byte>

  const MAX_FRAME := 0x10_0000
  const MAX_REPEATED := 65536
  const MAX_CONTEXT := 65536
  const MAX_BOPOMOFO := 4096
  const MAX_UTF8 := 0x4_0000

  /** A value read from the front of the input, and what is left. */
  datatype Parsed<+T> = Failed | Got(value: T, rest: Bytes)

  // ----- numbers, low byte first -----

  function Power(n: nat): (p: nat)
    ensures p > 0
  {
    if n == 0 then 1 else 256 * Power(n - 1)
  }

  function PutNumber(x: nat, width: nat): (s: Bytes)
    ensures |s| == width
  {
    if width == 0 then [] else var low: Byte := x % 256; [low] + PutNumber(x / 256, width - 1)
  }

  function NumberAt(s: Bytes, width: nat): (x: nat)
    requires width <= |s|
    ensures x < Power(width)
  {
    if width == 0 then 0 else s[0] as nat + 256 * NumberAt(s[1..], width - 1)
  }

  lemma {:induction false} NumberRoundTrip(x: nat, width: nat, rest: Bytes)
    requires x < Power(width)
    ensures NumberAt(PutNumber(x, width) + rest, width) == x
  {
    if width > 0 {
      var low: Byte := x % 256;
      NumberRoundTrip(x / 256, width - 1, rest);
      Associative([low], PutNumber(x / 256, width - 1), rest);
      Parts([low], PutNumber(x / 256, width - 1) + rest);
    }
  }

  function GetNumber(s: Bytes, width: nat): Parsed<nat> {
    if |s| < width then Failed else Got(NumberAt(s, width), s[width..])
  }

  lemma {:induction false} GetNumberRoundTrip(x: nat, width: nat, rest: Bytes)
    requires x < Power(width)
    ensures GetNumber(PutNumber(x, width) + rest, width) == Got(x, rest)
  {
    NumberRoundTrip(x, width, rest);
    Parts(PutNumber(x, width), rest);
  }

  lemma Powers()
    ensures Power(1) == 0x100 && Power(2) == 0x1_0000 && Power(4) == 0x1_0000_0000 && Power(8) == 0x1_0000_0000_0000_0000
  {
    assert Power(3) == 0x100_0000;
    assert Power(5) == 0x100_0000_0000;
    assert Power(6) == 0x1_0000_0000_0000;
    assert Power(7) == 0x100_0000_0000_0000;
  }

  function PutBool(b: bool): Bytes {
    if b then [1] else [0]
  }

  /** Any other byte than zero reads as true. */
  function GetBool(s: Bytes): Parsed<bool> {
    if s == [] then Failed else Got(s[0] != 0, s[1..])
  }

  lemma BoolRoundTrip(b: bool, rest: Bytes)
    ensures GetBool(PutBool(b) + rest) == Got(b, rest)
  {
    Parts(PutBool(b), rest);
  }

  function GetId(s: Bytes): Parsed<Id> {
    if |s| < 16 then Failed else var id: Id := s[..16]; Got(id, s[16..])
  }

  lemma IdRoundTrip(id: Id, rest: Bytes)
    ensures GetId(id + rest) == Got(id, rest)
  {
    Parts(id, rest);
  }

  // ----- text -----

  function PutUnits(text: Text): (s: Bytes)
    ensures |s| == 2 * |text|
  {
    if text == [] then [] else PutNumber(text[0], 2) + PutUnits(text[1..])
  }

  function UnitsAt(s: Bytes, count: nat): (text: Text)
    requires 2 * count <= |s|
    ensures |text| == count
  {
    if count == 0 then []
    else
      Powers();
      var unit: Unit := NumberAt(s, 2);
      [unit] + UnitsAt(s[2..], count - 1)
  }

  lemma {:induction false} UnitsRoundTrip(text: Text, rest: Bytes)
    ensures UnitsAt(PutUnits(text) + rest, |text|) == text
  {
    if text != [] {
      Powers();
      var head, tail := PutNumber(text[0], 2), PutUnits(text[1..]);
      Associative(head, tail, rest);
      NumberRoundTrip(text[0], 2, tail + rest);
      Parts(head, tail + rest);
      UnitsRoundTrip(text[1..], rest);
      PushOne(text, 0);
      Whole(text);
    }
  }

  function PutText(text: Text): Bytes {
    PutNumber(|text|, 4) + PutUnits(text)
  }

  function GetText(s: Bytes, limit: nat): Parsed<Text> {
    match GetNumber(s, 4)
    case Failed => Failed
    case Got(count, rest) =>
      if count > limit || 2 * count > |rest| then Failed
      else if !ValidUtf16(UnitsAt(rest, count)) then Failed
      else Got(UnitsAt(rest, count), rest[2 * count..])
  }

  lemma TextRoundTrip(text: Text, limit: nat, rest: Bytes)
    requires |text| <= limit < 0x1_0000_0000 && ValidUtf16(text)
    ensures GetText(PutText(text) + rest, limit) == Got(text, rest)
  {
    hide DecodeUtf16;
    Powers();
    Associative(PutNumber(|text|, 4), PutUnits(text), rest);
    GetNumberRoundTrip(|text|, 4, PutUnits(text) + rest);
    UnitsRoundTrip(text, rest);
    Parts(PutUnits(text), rest);
  }

  function PutUtf8(text: Bytes): Bytes {
    PutNumber(|text|, 4) + text
  }

  function GetUtf8(s: Bytes): Parsed<Bytes> {
    match GetNumber(s, 4)
    case Failed => Failed
    case Got(size, rest) =>
      if size > MAX_UTF8 || size > |rest| || !Utf8Octets(rest[..size]) then Failed
      else Got(rest[..size], rest[size..])
  }

  lemma {:induction false} Utf8RoundTrip(text: Bytes, rest: Bytes)
    requires |text| <= MAX_UTF8 && Utf8Octets(text)
    ensures GetUtf8(PutUtf8(text) + rest) == Got(text, rest)
  {
    hide Utf8Octets;
    Powers();
    Associative(PutNumber(|text|, 4), text, rest);
    GetNumberRoundTrip(|text|, 4, text + rest);
    Parts(text, rest);
  }

  function GetScalar(s: Bytes): Parsed<nat> {
    match GetNumber(s, 4)
    case Failed => Failed
    case Got(value, rest) => if IsScalar(value) then Got(value, rest) else Failed
  }

  lemma {:induction false} ScalarRoundTrip(c: nat, rest: Bytes)
    requires IsScalar(c)
    ensures GetScalar(PutNumber(c, 4) + rest) == Got(c, rest)
  {
    Powers();
    GetNumberRoundTrip(c, 4, rest);
  }
}
