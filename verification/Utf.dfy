/** UTF-8 and UTF-16 conversions and bounded tails (engine/src/text/utf.cpp).

    Bit masks on bytes are written as the ranges they test and shifts by six as
    multiplications by 64; an exception of the source is the value None. */
module Utf {
  import opened Wrappers
  import opened Sequences

  type Byte = x: int | 0 <= x < 0x100
  type Unit = x: int | 0 <= x < 0x1_0000

  predicate IsScalar(c: int) {
    0 <= c < 0xD800 || 0xDFFF < c <= 0x10FFFF
  }

  type Scalar = c: int | 0 <= c < 0xD800 || 0xDFFF < c <= 0x10FFFF

  // ----- UTF-8, section 3 of RFC 3629 -----

  function EncodeUtf8(c: Scalar): (s: seq<Byte>)
    ensures 1 <= |s| <= 4
  {
    var low: Byte := 0x80 + c % 64;
    var middle: Byte := 0x80 + c / 64 % 64;
    var high: Byte := 0x80 + c / 4096 % 64;
    if c <= 0x7F then var b: Byte := c; [b]
    else if c <= 0x7FF then var b: Byte := 0xC0 + c / 64; [b, low]
    else if c <= 0xFFFF then var b: Byte := 0xE0 + c / 4096; [b, middle, low]
    else var b: Byte := 0xF0 + c / 262144; [b, high, middle, low]
  }

  function Utf8(cs: seq<Scalar>): seq<Byte> {
    if cs == [] then [] else EncodeUtf8(cs[0]) + Utf8(cs[1..])
  }

  // ----- the syntax of section 4 of RFC 3629 -----

  predicate IsTail(b: Byte) { 0x80 <= b <= 0xBF }

  predicate Utf8Char1(s: seq<Byte>) { |s| >= 1 && s[0] <= 0x7F }

  predicate Utf8Char2(s: seq<Byte>) { |s| >= 2 && 0xC2 <= s[0] <= 0xDF && IsTail(s[1]) }

  predicate Utf8Char3(s: seq<Byte>) {
    |s| >= 3 && IsTail(s[2]) &&
    (|| (s[0] == 0xE0 && 0xA0 <= s[1] <= 0xBF)
     || (0xE1 <= s[0] <= 0xEC && IsTail(s[1]))
     || (s[0] == 0xED && 0x80 <= s[1] <= 0x9F)
     || (0xEE <= s[0] <= 0xEF && IsTail(s[1])))
  }

  predicate Utf8Char4(s: seq<Byte>) {
    |s| >= 4 && IsTail(s[2]) && IsTail(s[3]) &&
    (|| (s[0] == 0xF0 && 0x90 <= s[1] <= 0xBF)
     || (0xF1 <= s[0] <= 0xF3 && IsTail(s[1]))
     || (s[0] == 0xF4 && 0x80 <= s[1] <= 0x8F))
  }

  /** The length of the UTF8-char that `s` starts with, 0 when there is none. */
  function CharLength(s: seq<Byte>): (n: nat)
    ensures n <= |s| && n <= 4
  {
    if Utf8Char1(s) then 1
    else if Utf8Char2(s) then 2
    else if Utf8Char3(s) then 3
    else if Utf8Char4(s) then 4
    else 0
  }

  /** UTF8-octets: a sequence of UTF8-char. */
  predicate Utf8Octets(s: seq<Byte>) {
    s == [] || (CharLength(s) > 0 && Utf8Octets(s[CharLength(s)..]))
  }

  /** The value of the first `length` bytes, six payload bits a tail byte. */
  function CharValue(s: seq<Byte>, length: nat): int
    requires 1 <= length <= 4 && length <= |s|
  {
    if length == 1 then s[0]
    else if length == 2 then (s[0] as int - 0xC0) * 64 + (s[1] as int - 0x80)
    else if length == 3 then ((s[0] as int - 0xE0) * 64 + (s[1] as int - 0x80)) * 64 + (s[2] as int - 0x80)
    else (((s[0] as int - 0xF0) * 64 + (s[1] as int - 0x80)) * 64 + (s[2] as int - 0x80)) * 64 + (s[3] as int - 0x80)
  }

  /** Splitting a value into six-bit groups undoes joining them. */
  lemma SixBits(high: nat, low: nat)
    requires low < 64
    ensures (high * 64 + low) / 64 == high && (high * 64 + low) % 64 == low
    ensures (high * 64 + low) / 4096 == high / 64
    ensures (high * 64 + low) / 262144 == high / 4096
  {
  }

  lemma CharIsScalar(s: seq<Byte>)
    requires CharLength(s) > 0
    ensures IsScalar(CharValue(s, CharLength(s)))
    ensures EncodeUtf8(CharValue(s, CharLength(s))) == s[..CharLength(s)]
  {
    var n := CharLength(s);
    if n == 2 {
      SixBits(s[0] as int - 0xC0, s[1] as int - 0x80);
    } else if n == 3 {
      Char3IsScalar(s);
    } else if n == 4 {
      Char4IsScalar(s);
    }
  }

  lemma Char3IsScalar(s: seq<Byte>)
    requires Utf8Char3(s)
    ensures IsScalar(CharValue(s, 3)) && EncodeUtf8(CharValue(s, 3)) == s[..3]
  {
    var c2 := (s[0] as int - 0xE0) * 64 + (s[1] as int - 0x80);
    SixBits(s[0] as int - 0xE0, s[1] as int - 0x80);
    SixBits(c2, s[2] as int - 0x80);
    assert IsScalar(CharValue(s, 3));
  }

  lemma Char4IsScalar(s: seq<Byte>)
    requires Utf8Char4(s)
    ensures IsScalar(CharValue(s, 4)) && EncodeUtf8(CharValue(s, 4)) == s[..4]
  {
    var c2 := (s[0] as int - 0xF0) * 64 + (s[1] as int - 0x80);
    var c3 := c2 * 64 + (s[2] as int - 0x80);
    SixBits(s[0] as int - 0xF0, s[1] as int - 0x80);
    SixBits(c2, s[2] as int - 0x80);
    SixBits(c3, s[3] as int - 0x80);
    assert IsScalar(CharValue(s, 4));
  }

  lemma EncodeShape(c: Scalar)
    ensures !IsTail(EncodeUtf8(c)[0])
    ensures forall k :: 1 <= k < |EncodeUtf8(c)| ==> IsTail(EncodeUtf8(c)[k])
    ensures |EncodeUtf8(c)| == 4 <==> |EncodeUtf16(c)| == 2
  {
  }

  lemma JoinSixBits(c: nat)
    ensures c == ((c / 4096) * 64 + c / 64 % 64) * 64 + c % 64
    ensures c == (((c / 262144) * 64 + c / 4096 % 64) * 64 + c / 64 % 64) * 64 + c % 64
  {
    NextDigit(c, 64);
    NextDigit(c, 4096);
  }

  lemma NextDigit(c: nat, unit: nat)
    requires unit == 64 || unit == 4096
    ensures c == c / 64 * 64 + c % 64
    ensures c / unit == c / (unit * 64) * 64 + c / unit % 64
  {
  }

  lemma EncodeValue(c: Scalar)
    ensures CharValue(EncodeUtf8(c), |EncodeUtf8(c)|) == c
  {
    JoinSixBits(c);
  }

  lemma ThreeDigits(c: Scalar, high: nat, middle: nat, low: nat)
    requires c == (high * 64 + middle) * 64 + low && middle < 64 && low < 64 && 0x7FF < c <= 0xFFFF
    ensures high <= 15 && (high == 0 ==> middle >= 32) && (high == 13 ==> middle < 32)
  {
  }

  lemma FourDigits(c: Scalar, top: nat, high: nat, middle: nat, low: nat)
    requires c == ((top * 64 + high) * 64 + middle) * 64 + low && high < 64 && middle < 64 && low < 64 && c > 0xFFFF
    ensures top <= 4 && (top == 0 ==> high >= 16) && (top == 4 ==> high < 16)
  {
  }

  lemma EncodeLength(c: Scalar)
    ensures CharLength(EncodeUtf8(c)) == |EncodeUtf8(c)|
  {
    EncodeShape(c);
    JoinSixBits(c);
    if 0x7FF < c <= 0xFFFF {
      ThreeDigits(c, c / 4096, c / 64 % 64, c % 64);
    } else if c > 0xFFFF {
      FourDigits(c, c / 262144, c / 4096 % 64, c / 64 % 64, c % 64);
    }
  }

  lemma CharOfPrefix(s: seq<Byte>, t: seq<Byte>)
    requires CharLength(s) == |s| > 0
    ensures CharLength(s + t) == |s| && CharValue(s + t, |s|) == CharValue(s, |s|)
  {
    forall k | 0 <= k < |s| ensures (s + t)[k] == s[k] {
    }
  }

  lemma EncodeIsChar(c: Scalar, t: seq<Byte>)
    ensures CharLength(EncodeUtf8(c) + t) == |EncodeUtf8(c)|
    ensures CharValue(EncodeUtf8(c) + t, |EncodeUtf8(c)|) == c
  {
    EncodeValue(c);
    EncodeLength(c);
    CharOfPrefix(EncodeUtf8(c), t);
  }

  function DecodeUtf8(s: seq<Byte>): Option<seq<Scalar>> {
    if s == [] then Some([])
    else
      var n := CharLength(s);
      if n == 0 then None
      else
        CharIsScalar(s);
        match DecodeUtf8(s[n..])
        case None => None
        case Some(cs) => Some([CharValue(s, n)] + cs)
  }

  lemma {:induction false} Utf8Append(a: seq<Scalar>, b: seq<Scalar>)
    ensures Utf8(a + b) == Utf8(a) + Utf8(b)
  {
    if a == [] {
      NothingAdded(b);
    } else {
      Utf8Append(a[1..], b);
      TailOfSum(a, b);
      Associative(EncodeUtf8(a[0]), Utf8(a[1..]), Utf8(b));
    }
  }

  lemma {:induction false} Utf8Push(cs: seq<Scalar>, c: Scalar)
    ensures Utf8(cs + [c]) == Utf8(cs) + EncodeUtf8(c)
  {
    Utf8Append(cs, [c]);
    assert Utf8([c]) == EncodeUtf8(c) + Utf8([]) == EncodeUtf8(c);
  }

  lemma {:induction false} DecodeOfUtf8(cs: seq<Scalar>)
    ensures DecodeUtf8(Utf8(cs)) == Some(cs)
  {
    if cs != [] {
      var s, t := Utf8(cs), Utf8(cs[1..]);
      EncodeIsChar(cs[0], t);
      assert s[|EncodeUtf8(cs[0])|..] == t;
      DecodeOfUtf8(cs[1..]);
      assert cs == [cs[0]] + cs[1..];
    }
  }

  lemma {:induction false} Utf8OfDecode(s: seq<Byte>)
    ensures DecodeUtf8(s).Some? <==> Utf8Octets(s)
    ensures DecodeUtf8(s).Some? ==> Utf8(DecodeUtf8(s).value) == s
  {
    var n := CharLength(s);
    if s != [] && n > 0 {
      CharIsScalar(s);
      Utf8OfDecode(s[n..]);
      assert s == s[..n] + s[n..];
    }
  }

  /** The well-formed byte sequences are exactly the encodings of scalars. */
  lemma {:induction false} Utf8OctetsAreEncodings(s: seq<Byte>)
    ensures Utf8Octets(s) <==> exists cs: seq<Scalar> :: Utf8(cs) == s
  {
    Utf8OfDecode(s);
    forall cs: seq<Scalar> | Utf8(cs) == s ensures Utf8Octets(s) {
      DecodeOfUtf8(cs);
    }
  }

  // ----- UTF-16, sections 2.1 and 2.2 of RFC 2781 -----

  predicate IsHigh(u: Unit) { 0xD800 <= u <= 0xDBFF }

  predicate IsLow(u: Unit) { 0xDC00 <= u <= 0xDFFF }

  function EncodeUtf16(c: Scalar): (s: seq<Unit>)
    ensures |s| == 1 || |s| == 2
    ensures |s| == 1 ==> !IsHigh(s[0]) && !IsLow(s[0])
    ensures |s| == 2 ==> IsHigh(s[0]) && IsLow(s[1])
  {
    if c <= 0xFFFF then
      var u: Unit := c; [u]
    else
      var high: Unit := 0xD800 + (c - 0x10000) / 1024;
      var low: Unit := 0xDC00 + (c - 0x10000) % 1024;
      [high, low]
  }

  function Utf16(cs: seq<Scalar>): seq<Unit> {
    if cs == [] then [] else EncodeUtf16(cs[0]) + Utf16(cs[1..])
  }

  function PairValue(high: Unit, low: Unit): (c: Scalar)
    requires IsHigh(high) && IsLow(low)
    ensures EncodeUtf16(c) == [high, low]
  {
    var top := high as int - 0xD800;
    var bottom := low as int - 0xDC00;
    assert (top * 1024 + bottom) / 1024 == top && (top * 1024 + bottom) % 1024 == bottom;
    0x10000 + top * 1024 + bottom
  }

  function DecodeUtf16(s: seq<Unit>): Option<seq<Scalar>> {
    if s == [] then Some([])
    else if IsHigh(s[0]) then
      if |s| == 1 || !IsLow(s[1]) then None
      else
        match DecodeUtf16(s[2..])
        case None => None
        case Some(cs) => Some([PairValue(s[0], s[1])] + cs)
    else if IsLow(s[0]) then None
    else
      match DecodeUtf16(s[1..])
      case None => None
      case Some(cs) => var c: Scalar := s[0]; Some([c] + cs)
  }

  lemma {:induction false} Utf16Append(a: seq<Scalar>, b: seq<Scalar>)
    ensures Utf16(a + b) == Utf16(a) + Utf16(b)
  {
    if a == [] {
      NothingAdded(b);
    } else {
      Utf16Append(a[1..], b);
      TailOfSum(a, b);
      Associative(EncodeUtf16(a[0]), Utf16(a[1..]), Utf16(b));
    }
  }

  lemma {:induction false} Utf16Push(cs: seq<Scalar>, c: Scalar)
    ensures Utf16(cs + [c]) == Utf16(cs) + EncodeUtf16(c)
  {
    Utf16Append(cs, [c]);
    assert Utf16([c]) == EncodeUtf16(c) + Utf16([]) == EncodeUtf16(c);
  }

  lemma {:induction false} DecodeOfUtf16(cs: seq<Scalar>)
    ensures DecodeUtf16(Utf16(cs)) == Some(cs)
  {
    if cs != [] {
      var s, t := Utf16(cs), Utf16(cs[1..]);
      DecodeOfUtf16(cs[1..]);
      assert cs == [cs[0]] + cs[1..];
      if cs[0] > 0xFFFF {
        assert s[2..] == t;
        assert EncodeUtf16(PairValue(s[0], s[1])) == EncodeUtf16(cs[0]);
        assert PairValue(s[0], s[1]) == cs[0];
      } else {
        assert s[1..] == t;
      }
    }
  }

  lemma {:induction false} Utf16OfDecode(s: seq<Unit>)
    ensures DecodeUtf16(s).Some? ==> Utf16(DecodeUtf16(s).value) == s
  {
    if s != [] {
      if IsHigh(s[0]) {
        if |s| > 1 && IsLow(s[1]) {
          Utf16OfDecode(s[2..]);
          assert s == [s[0], s[1]] + s[2..];
        }
      } else if !IsLow(s[0]) {
        Utf16OfDecode(s[1..]);
        assert s == [s[0]] + s[1..];
      }
    }
  }

  // ----- the conversions -----

  function Utf8ToUtf16(s: seq<Byte>): Option<seq<Unit>> {
    match DecodeUtf8(s)
    case None => None
    case Some(cs) => Some(Utf16(cs))
  }

  function Utf16ToUtf8(s: seq<Unit>): Option<seq<Byte>> {
    match DecodeUtf16(s)
    case None => None
    case Some(cs) => Some(Utf8(cs))
  }

  /** On well-formed text the two conversions undo each other. */
  lemma {:induction false} ConversionsAreInverse(units: seq<Unit>, bytes: seq<Byte>)
    ensures Utf16ToUtf8(units) == Some(bytes) <==> Utf8ToUtf16(bytes) == Some(units)
    ensures Utf16ToUtf8(units).Some? <==> exists cs: seq<Scalar> :: Utf16(cs) == units
    ensures Utf8ToUtf16(bytes).Some? <==> Utf8Octets(bytes)
  {
    Utf16OfDecode(units);
    Utf8OfDecode(bytes);
    if DecodeUtf16(units).Some? {
      DecodeOfUtf8(DecodeUtf16(units).value);
    }
    if DecodeUtf8(bytes).Some? {
      DecodeOfUtf16(DecodeUtf8(bytes).value);
    }
    forall cs: seq<Scalar> | Utf16(cs) == units ensures DecodeUtf16(units) == Some(cs) {
      DecodeOfUtf16(cs);
    }
  }

  // ----- the loops of the source -----

  /** The value collected once `offset` bytes of a `length`-byte character are read. */
  function Collected(s: seq<Byte>, length: nat, offset: nat): int
    requires 1 <= length <= 4 && 1 <= offset <= length && offset <= |s|
  {
    var lead: int := if length == 1 then s[0] else if length == 2 then s[0] as int - 0xC0
                     else if length == 3 then s[0] as int - 0xE0 else s[0] as int - 0xF0;
    if offset == 1 then lead
    else if offset == 2 then lead * 64 + (s[1] as int - 0x80)
    else if offset == 3 then (lead * 64 + (s[1] as int - 0x80)) * 64 + (s[2] as int - 0x80)
    else ((lead * 64 + (s[1] as int - 0x80)) * 64 + (s[2] as int - 0x80)) * 64 + (s[3] as int - 0x80)
  }

  /** The announced length of a lead byte, 0 for a byte that cannot lead. */
  function LeadLength(b: Byte): nat {
    if b < 0x80 then 1 else if 0xC0 <= b < 0xE0 then 2 else if 0xE0 <= b < 0xF0 then 3 else if 0xF0 <= b < 0xF8 then 4 else 0
  }

  /** The checks of visit_utf8 after collecting a character: not overlong, a scalar. */
  predicate ValueAllowed(length: nat, value: int) {
    !(length == 2 && value < 0x80) && !(length == 3 && value < 0x800) && !(length == 4 && value < 0x10000) &&
    IsScalar(value)
  }

  /** Checking the collected value accepts the same characters as the syntax of the RFC. */
  lemma ChecksMatchSyntax(s: seq<Byte>, length: nat)
    requires s != [] && length == LeadLength(s[0]) && 1 <= length <= |s|
    requires forall k :: 1 <= k < length ==> IsTail(s[k])
    ensures Collected(s, length, length) == CharValue(s, length)
    ensures CharLength(s) == if ValueAllowed(length, CharValue(s, length)) then length else 0
  {
  }

  lemma NotACharacter(s: seq<Byte>, k: nat)
    requires s != [] && k < LeadLength(s[0]) && (k >= |s| || (k > 0 && !IsTail(s[k])))
    ensures CharLength(s) == 0
  {
  }

  /** One turn of the loop of visit_utf8: the scalar at `i` and the offset behind it. */
  method VisitOne(input: seq<Byte>, i: nat) returns (r: Option<(int, nat)>)
    requires i < |input|
    ensures r.None? <==> CharLength(input[i..]) == 0
    ensures r.Some? ==> r.value == (CharValue(input[i..], CharLength(input[i..])), i + CharLength(input[i..]))
  {
    ghost var s := input[i..];
    var byte := input[i];
    var codepoint: int, length: nat;
    if byte < 0x80 {
      codepoint, length := byte, 1;
    } else if 0xC0 <= byte < 0xE0 {
      codepoint, length := byte as int - 0xC0, 2;
    } else if 0xE0 <= byte < 0xF0 {
      codepoint, length := byte as int - 0xE0, 3;
    } else if 0xF0 <= byte < 0xF8 {
      codepoint, length := byte as int - 0xF0, 4;
    } else {
      return None;
    }
    if i + length > |input| {
      NotACharacter(s, |s|);
      return None;
    }
    var offset := 1;
    while offset < length
      invariant 1 <= offset <= length
      invariant forall k :: 1 <= k < offset ==> IsTail(s[k])
      invariant codepoint == Collected(s, length, offset)
    {
      var continuation := input[i + offset];
      if !(0x80 <= continuation < 0xC0) {
        NotACharacter(s, offset);
        return None;
      }
      codepoint := codepoint * 64 + (continuation as int - 0x80);
      offset := offset + 1;
    }
    ChecksMatchSyntax(s, length);
    if (length == 2 && codepoint < 0x80) || (length == 3 && codepoint < 0x800) || (length == 4 && codepoint < 0x10000) ||
       0xD800 <= codepoint <= 0xDFFF || codepoint > 0x10FFFF {
      return None;
    }
    return Some((codepoint, i + length));
  }

  function Prepend(done: seq<Scalar>, rest: Option<seq<Scalar>>): Option<seq<Scalar>> {
    match rest
    case None => None
    case Some(cs) => Some(done + cs)
  }

  lemma PrependTwice(a: seq<Scalar>, b: seq<Scalar>, rest: Option<seq<Scalar>>)
    ensures Prepend(a, Prepend(b, rest)) == Prepend(a + b, rest)
    ensures Prepend([], rest) == rest
    ensures Prepend(a, Some([])) == Some(a)
  {
    assert a + [] == a;
    if rest.Some? {
      assert [] + rest.value == rest.value;
      Associative(a, b, rest.value);
    }
  }

  lemma {:induction false} DecodeHead(s: seq<Byte>)
    requires CharLength(s) > 0
    ensures IsScalar(CharValue(s, CharLength(s)))
    ensures DecodeUtf8(s) == Prepend([CharValue(s, CharLength(s))], DecodeUtf8(s[CharLength(s)..]))
  {
    CharIsScalar(s);
  }

  lemma {:induction false} DecodeStep(input: seq<Byte>, i: nat, done: seq<Scalar>)
    requires i < |input|
    requires DecodeUtf8(input) == Prepend(done, DecodeUtf8(input[i..]))
    ensures CharLength(input[i..]) == 0 ==> DecodeUtf8(input).None?
    ensures CharLength(input[i..]) > 0 ==>
      var n := CharLength(input[i..]);
      var c := CharValue(input[i..], n);
      IsScalar(c) && DecodeUtf8(input) == Prepend(done + [c], DecodeUtf8(input[i + n..]))
  {
    hide *;
    var s := input[i..];
    var n := CharLength(s);
    if n > 0 {
      DecodeHead(s);
      PrependTwice(done, [CharValue(s, n)], DecodeUtf8(s[n..]));
      DropDrop(input, i, n);
    } else {
      DecodeStuck(s);
      PrependNothing(done);
    }
  }

  lemma PrependNothing(done: seq<Scalar>)
    ensures Prepend(done, None) == None
  {
  }

  lemma {:induction false} DecodeStuck(s: seq<Byte>)
    ensures s != [] && CharLength(s) == 0 ==> DecodeUtf8(s).None?
    ensures DecodeUtf8([]) == Some([])
  {
  }

  method Utf8ToU32(input: seq<Byte>) returns (r: Option<seq<Scalar>>)
    ensures r == DecodeUtf8(input)
  {
    var output: seq<Scalar> := [];
    var i := 0;
    assert input[0..] == input;
    PrependTwice([], [], DecodeUtf8(input));
    while i < |input|
      invariant 0 <= i <= |input|
      invariant DecodeUtf8(input) == Prepend(output, DecodeUtf8(input[i..]))
    {
      var step := VisitOne(input, i);
      DecodeStep(input, i, output);
      if step.None? {
        return None;
      }
      output := output + [step.value.0];
      i := step.value.1;
    }
    assert input[i..] == [];
    PrependTwice(output, [], None);
    return Some(output);
  }

  method Utf8ToU16(input: seq<Byte>) returns (r: Option<seq<Unit>>)
    ensures r == Utf8ToUtf16(input)
  {
    var scalars := Utf8ToU32(input);
    if scalars.None? {
      return None;
    }
    var output: seq<Unit> := [];
    for k := 0 to |scalars.value|
      invariant output == Utf16(scalars.value[..k])
    {
      var codepoint: int := scalars.value[k];
      assert scalars.value[..k + 1] == scalars.value[..k] + [codepoint];
      Utf16Push(scalars.value[..k], codepoint);
      if codepoint <= 0xFFFF {
        output := output + [codepoint];
      } else {
        codepoint := codepoint - 0x10000;
        var high: Unit, low: Unit := 0xD800 + codepoint / 1024, 0xDC00 + codepoint % 1024;
        output := output + [high] + [low];
      }
    }
    assert scalars.value[..|scalars.value|] == scalars.value;
    return Some(output);
  }

  lemma {:induction false} DecodeUtf16Step(input: seq<Unit>, i: nat, done: seq<Scalar>)
    requires i < |input|
    requires DecodeUtf16(input) == Prepend(done, DecodeUtf16(input[i..]))
    ensures IsHigh(input[i]) && (i + 1 >= |input| || !IsLow(input[i + 1])) ==> DecodeUtf16(input).None?
    ensures IsHigh(input[i]) && i + 1 < |input| && IsLow(input[i + 1]) ==>
      DecodeUtf16(input) == Prepend(done + [PairValue(input[i], input[i + 1])], DecodeUtf16(input[i + 2..]))
    ensures IsLow(input[i]) ==> DecodeUtf16(input).None?
    ensures !IsHigh(input[i]) && !IsLow(input[i]) ==>
      DecodeUtf16(input) == Prepend(done + [input[i]], DecodeUtf16(input[i + 1..]))
  {
    var s := input[i..];
    if IsHigh(s[0]) && |s| > 1 && IsLow(s[1]) {
      assert s[2..] == input[i + 2..];
      PrependTwice(done, [PairValue(s[0], s[1])], DecodeUtf16(s[2..]));
    } else if !IsHigh(s[0]) && !IsLow(s[0]) {
      assert s[1..] == input[i + 1..];
      PrependTwice(done, [s[0]], DecodeUtf16(s[1..]));
    }
  }

  method U16ToUtf8(input: seq<Unit>) returns (r: Option<seq<Byte>>)
    ensures r == Utf16ToUtf8(input)
  {
    var output: seq<Byte> := [];
    ghost var done: seq<Scalar> := [];
    var i := 0;
    assert input[0..] == input;
    PrependTwice([], [], DecodeUtf16(input));
    while i < |input|
      invariant 0 <= i <= |input|
      invariant DecodeUtf16(input) == Prepend(done, DecodeUtf16(input[i..]))
      invariant output == Utf8(done)
    {
      DecodeUtf16Step(input, i, done);
      var codepoint: Scalar;
      if 0xD800 <= input[i] <= 0xDBFF {
        if i + 1 >= |input| {
          return None;
        }
        i := i + 1;
        var low := input[i];
        if low < 0xDC00 || low > 0xDFFF {
          return None;
        }
        codepoint := PairValue(input[i - 1], low);
      } else if 0xDC00 <= input[i] <= 0xDFFF {
        return None;
      } else {
        codepoint := input[i];
      }
      Utf8Push(done, codepoint);
      done := done + [codepoint];
      output := output + EncodeUtf8(codepoint);
      i := i + 1;
    }
    assert input[i..] == [];
    PrependTwice(done, [], None);
    return Some(output);
  }

  // ----- bounded tails -----

  /** The last `limit` units, one less when that would start inside a surrogate pair. */
  function Utf16Tail(input: seq<Unit>, limit: nat): seq<Unit> {
    if limit == 0 || input == [] then []
    else if |input| <= limit then input
    else
      var start := |input| - limit;
      if start > 0 && IsLow(input[start]) && IsHigh(input[start - 1]) then input[start + 1..] else input[start..]
  }

  /** The scalars from `k` on are the longest tail of `p` that fits `limit` units. */
  predicate LongestTail(p: seq<Scalar>, k: nat, limit: nat) {
    k <= |p| && |Utf16(p[k..])| <= limit && (k > 0 ==> |Utf16(p[k - 1..])| > limit)
  }

  lemma {:induction false} Utf16Cut(p: seq<Scalar>, k: nat)
    requires k < |p|
    ensures Utf16(p) == Utf16(p[..k]) + EncodeUtf16(p[k]) + Utf16(p[k + 1..])
    ensures Utf16(p[k..]) == EncodeUtf16(p[k]) + Utf16(p[k + 1..])
  {
    assert p == p[..k] + p[k..];
    Utf16Append(p[..k], p[k..]);
    assert p[k..][1..] == p[k + 1..];
    Associative(Utf16(p[..k]), EncodeUtf16(p[k]), Utf16(p[k + 1..]));
  }

  /** The tail of well-formed UTF-16 is the longest tail of whole scalars that fits. */
  lemma {:induction false} TailOfScalars(p: seq<Scalar>, k: nat, limit: nat)
    requires LongestTail(p, k, limit)
    ensures Utf16Tail(Utf16(p), limit) == Utf16(p[k..])
  {
    var u := Utf16(p);
    if k == 0 {
      assert p[k..] == p;
    } else {
      Utf16Cut(p, k - 1);
      var front, middle, back := Utf16(p[..k - 1]), EncodeUtf16(p[k - 1]), Utf16(p[k..]);
      assert u == front + middle + back;
      var start := |u| - limit;
      if |back| < limit {
        assert |middle| == 2 && start == |front| + 1;
        assert u[start] == middle[1] && u[start - 1] == middle[0];
        assert u[start + 1..] == back;
      } else {
        assert u[start..] == back;
        if k < |p| {
          Utf16Cut(p, k);
          assert u[start] == EncodeUtf16(p[k])[0];
        } else {
          assert back == [] && limit == 0;
        }
      }
    }
  }

  /** A bounded tail of well-formed UTF-16 is well-formed: no surrogate pair is split. */
  lemma {:induction false} LongestTailExists(p: seq<Scalar>, limit: nat) returns (k: nat)
    ensures LongestTail(p, k, limit)
    ensures DecodeUtf16(Utf16Tail(Utf16(p), limit)) == Some(p[k..])
  {
    k := |p|;
    while k > 0 && |Utf16(p[k - 1..])| <= limit
      invariant k <= |p| && |Utf16(p[k..])| <= limit
    {
      k := k - 1;
    }
    TailOfScalars(p, k, limit);
    DecodeOfUtf16(p[k..]);
  }

  lemma ByteOfCut(p: seq<Scalar>, k: nat)
    requires 0 < k <= |p|
    ensures Utf8(p[..k]) == Utf8(p[..k - 1]) + EncodeUtf8(p[k - 1])
  {
    assert p[..k] == p[..k - 1] + [p[k - 1]];
    Utf8Push(p[..k - 1], p[k - 1]);
  }

  /** The first `count` scalars of a text. */
  function Firsts(cs: seq<Scalar>, count: nat): seq<Scalar> {
    if count < |cs| then cs[..count] else cs
  }

  lemma {:induction false} VisitedBytes(input: seq<Byte>, i: nat, done: seq<Scalar>)
    requires i < |input| && input[..i] == Utf8(done) && CharLength(input[i..]) > 0
    ensures IsScalar(CharValue(input[i..], CharLength(input[i..])))
    ensures input[..i + CharLength(input[i..])] == Utf8(done + [CharValue(input[i..], CharLength(input[i..]))])
  {
    var n := CharLength(input[i..]);
    CharIsScalar(input[i..]);
    Utf8Push(done, CharValue(input[i..], n));
    assert input[..i + n] == input[..i] + input[i..][..n];
  }

  lemma FirstsPush(done: seq<Scalar>, c: Scalar, count: nat)
    ensures Firsts(done + [c], count) == if |done| < count then done + [c] else Firsts(done, count)
  {
  }

  /** The visitor of utf8_prefix_tail: the byte offset behind the first `cursor` scalars. */
  method PrefixEnd(input: seq<Byte>, cursor: nat) returns (r: Option<nat>, ghost done: seq<Scalar>)
    ensures r.None? <==> DecodeUtf8(input).None?
    ensures r.Some? ==> DecodeUtf8(input) == Some(done)
    ensures r.Some? ==> r.value <= |input| && input[..r.value] == Utf8(Firsts(done, cursor))
  {
    hide DecodeUtf8, CharLength, CharValue, Firsts;
    var scalars, end := 0, 0;
    done := [];
    var i := 0;
    Whole(input);
    NothingYet(cursor);
    PrependTwice([], [], DecodeUtf8(input));
    while i < |input|
      invariant 0 <= i <= |input|
      invariant DecodeUtf8(input) == Prepend(done, DecodeUtf8(input[i..]))
      invariant input[..i] == Utf8(done) && scalars == |done|
      invariant 0 <= end <= i && input[..end] == Utf8(Firsts(done, cursor))
    {
      var step := VisitOne(input, i);
      DecodeStep(input, i, done);
      if step.None? {
        return None, done;
      }
      VisitedBytes(input, i, done);
      FirstsPush(done, step.value.0, cursor);
      done := done + [step.value.0];
      i := step.value.1;
      if scalars < cursor {
        end := i;
      }
      scalars := scalars + 1;
    }
    Whole(input);
    DecodeStuck([]);
    PrependTwice(done, [], None);
    r := Some(end);
  }

  lemma NothingYet(cursor: nat)
    ensures Utf8([]) == [] && Firsts([], cursor) == []
  {
  }

  /** The last character of a text, at the end of its bytes. */
  lemma {:induction false} LastEncoding(input: seq<Byte>, start: nat, q: seq<Scalar>)
    requires q != [] && start <= |input| && input[..start] == Utf8(q)
    ensures var last, front := EncodeUtf8(q[|q| - 1]), Utf8(q[..|q| - 1]);
      && start == |front| + |last| && input[..|front|] == front && !IsTail(last[0])
      && (forall k :: 0 <= k < |last| ==> input[|front| + k] == last[k])
      && (forall k :: 1 <= k < |last| ==> IsTail(last[k]))
  {
    hide *;
    var last, front := EncodeUtf8(q[|q| - 1]), Utf8(q[..|q| - 1]);
    Whole(q);
    ByteOfCut(q, |q|);
    EncodeShape(q[|q| - 1]);
    TwoParts(input, start, front, last);
  }

  lemma TwoParts(s: seq<Byte>, end: nat, a: seq<Byte>, b: seq<Byte>)
    requires end <= |s| && s[..end] == a + b
    ensures end == |a| + |b| && s[..|a|] == a && forall k :: 0 <= k < |b| ==> s[|a| + k] == b[k]
  {
    assert s[..|a|] == s[..end][..|a|];
    forall k | 0 <= k < |b| ensures s[|a| + k] == b[k] {
      assert s[|a| + k] == s[..end][|a| + k];
    }
  }

  /** Walks back over the tail bytes of the last character of `q`. */
  method PreviousStart(input: seq<Byte>, start: nat, ghost q: seq<Scalar>) returns (previous: nat)
    requires q != [] && start <= |input| && input[..start] == Utf8(q)
    ensures previous < start && input[..previous] == Utf8(q[..|q| - 1])
    ensures start - previous == |EncodeUtf8(q[|q| - 1])|
  {
    hide EncodeUtf8, Utf8, EncodeUtf16;
    ghost var last := EncodeUtf8(q[|q| - 1]);
    ghost var front := Utf8(q[..|q| - 1]);
    LastEncoding(input, start, q);
    previous := start - 1;
    while 0x80 <= input[previous] < 0xC0
      invariant |front| <= previous < start
      decreases previous
    {
      assert input[|front|] == last[0];
      previous := previous - 1;
    }
    assert input[previous] == last[previous - |front|];
    assert input[..previous] == front;
  }

  lemma {:induction false} TextBetween(input: seq<Byte>, start: nat, end: nat, p: seq<Scalar>, k: nat)
    requires start <= end <= |input| && k <= |p|
    requires input[..end] == Utf8(p) && input[..start] == Utf8(p[..k])
    ensures Utf8ToUtf16(input[start..end]) == Some(Utf16(p[k..]))
  {
    hide *;
    CutAt(p, k);
    Utf8Append(p[..k], p[k..]);
    Parts(Utf8(p[..k]), Utf8(p[k..]));
    Middle(input, start, end);
    ConvertScalars(p[k..]);
  }

  lemma {:induction false} ConvertScalars(cs: seq<Scalar>)
    ensures Utf8ToUtf16(Utf8(cs)) == Some(Utf16(cs))
  {
    DecodeOfUtf8(cs);
  }

  /** Walks back over whole characters while they fit. */
  lemma EmptyText(p: seq<Scalar>)
    ensures p[..0] == [] && Utf8([]) == [] && p[..|p|] == p && p[|p|..] == [] && Utf16([]) == []
  {
  }

  method TailStart(input: seq<Byte>, end: nat, limit: nat, ghost p: seq<Scalar>) returns (start: nat, ghost k: nat)
    requires end <= |input| && input[..end] == Utf8(p)
    ensures LongestTail(p, k, limit) && start <= end && input[..start] == Utf8(p[..k])
  {
    hide Utf8, Utf16, EncodeUtf8, EncodeUtf16;
    start := end;
    var units := 0;
    k := |p|;
    EmptyText(p);
    while start > 0 && units < limit
      invariant 0 <= k <= |p| && 0 <= start <= end
      invariant input[..start] == Utf8(p[..k]) && units == |Utf16(p[k..])| <= limit
      decreases k
    {
      EmptyText(p);
      var previous := PreviousStart(input, start, p[..k]);
      assert p[..k][..k - 1] == p[..k - 1];
      EncodeShape(p[k - 1]);
      Utf16Cut(p, k - 1);
      var width := if start - previous == 4 then 2 else 1;
      if width > limit - units {
        return;
      }
      units := units + width;
      start := previous;
      k := k - 1;
    }
    if k > 0 {
      ByteOfCut(p, k);
      Utf16Cut(p, k - 1);
    }
  }

  /** The bounded tail of the text before the cursor, found without converting all of it. */
  method Utf8PrefixTail(input: seq<Byte>, cursor: nat, limit: nat) returns (r: Option<seq<Unit>>)
    ensures r.None? <==> DecodeUtf8(input).None?
    ensures r.Some? ==> r.value == Utf16Tail(Utf16(Firsts(DecodeUtf8(input).value, cursor)), limit)
  {
    var end, done := PrefixEnd(input, cursor);
    if end.None? {
      return None;
    }
    ghost var p := Firsts(done, cursor);
    var start, k := TailStart(input, end.value, limit, p);
    TailOfScalars(p, k, limit);
    TextBetween(input, start, end.value, p, k);
    r := Utf8ToU16(input[start..end.value]);
  }

  // ----- the protocol's own checks, written once by the client and once by the service -----

  lemma {:induction false} OctetsStep(value: seq<Byte>, i: nat)
    requires i < |value|
    requires Utf8Octets(value) <==> Utf8Octets(value[i..])
    ensures CharLength(value[i..]) == 0 ==> !Utf8Octets(value)
    ensures CharLength(value[i..]) > 0 ==> (Utf8Octets(value) <==> Utf8Octets(value[i + CharLength(value[i..])..]))
  {
    var n := CharLength(value[i..]);
    assert n > 0 ==> value[i..][n..] == value[i + n..];
  }

  /** The lead bytes both protocol checks accept, and the length they announce. */
  function StrictLead(b: Byte): nat {
    if b <= 0x7F then 1 else if 0xC2 <= b <= 0xDF then 2 else if 0xE0 <= b <= 0xEF then 3 else if 0xF0 <= b <= 0xF4 then 4 else 0
  }

  lemma StrictChecksMatchSyntax(s: seq<Byte>, length: nat)
    requires s != [] && length == StrictLead(s[0]) && 1 <= length <= |s|
    requires forall k :: 1 <= k < length ==> IsTail(s[k])
    ensures CharLength(s) == (var cp := Collected(s, length, length);
                              if IsScalar(cp) && !(length == 3 && cp < 0x800) && !(length == 4 && cp < 0x10000) then length else 0)
  {
  }

  lemma StrictNotACharacter(s: seq<Byte>, k: nat)
    requires s != [] && (StrictLead(s[0]) == 0 || (k < StrictLead(s[0]) && (k >= |s| || (k > 0 && !IsTail(s[k])))))
    ensures CharLength(s) == 0
  {
  }

  /** One character of the client's check; 0 when there is none. */
  method ClientCharacter(value: seq<Byte>, i: nat) returns (n: nat)
    requires i < |value|
    ensures n == CharLength(value[i..])
  {
    ghost var s := value[i..];
    var first := value[i];
    var length := 0;
    var cp: int := 0;
    if first <= 0x7F {
      return 1;
    }
    if 0xC2 <= first <= 0xDF {
      length, cp := 2, first as int - 0xC0;
    } else if 0xE0 <= first <= 0xEF {
      length, cp := 3, first as int - 0xE0;
    } else if 0xF0 <= first <= 0xF4 {
      length, cp := 4, first as int - 0xF0;
    } else {
      StrictNotACharacter(s, 0);
      return 0;
    }
    if i + length > |value| {
      StrictNotACharacter(s, |s|);
      return 0;
    }
    var j := 1;
    while j < length
      invariant 1 <= j <= length && cp == Collected(s, length, j)
      invariant forall k :: 1 <= k < j ==> IsTail(s[k])
    {
      var next := value[i + j];
      if !(0x80 <= next < 0xC0) {
        StrictNotACharacter(s, j);
        return 0;
      }
      cp := cp * 64 + (next as int - 0x80);
      j := j + 1;
    }
    StrictChecksMatchSyntax(s, length);
    if !IsScalar(cp) || (length == 3 && cp < 0x800) || (length == 4 && cp < 0x10000) {
      return 0;
    }
    return length;
  }

  /** valid_utf8 of the client. */
  method ClientValidUtf8(value: seq<Byte>) returns (ok: bool)
    ensures ok <==> Utf8Octets(value)
  {
    hide CharLength;
    var i := 0;
    Whole(value);
    while i < |value|
      invariant 0 <= i <= |value| && (Utf8Octets(value) <==> Utf8Octets(value[i..]))
    {
      OctetsStep(value, i);
      var n := ClientCharacter(value, i);
      if n == 0 {
        return false;
      }
      i := i + n;
    }
    return true;
  }

  /** One character of the service's check, which tests the surrogates twice. */
  method ServiceCharacter(value: seq<Byte>, i: nat) returns (n: nat)
    requires i < |value|
    ensures n == CharLength(value[i..])
  {
    ghost var s := value[i..];
    var first := value[i];
    var codepoint: int, length := 0, 0;
    if first <= 0x7F {
      return 1;
    } else if 0xC2 <= first <= 0xDF {
      codepoint, length := first as int - 0xC0, 2;
    } else if 0xE0 <= first <= 0xEF {
      codepoint, length := first as int - 0xE0, 3;
    } else if 0xF0 <= first <= 0xF4 {
      codepoint, length := first as int - 0xF0, 4;
    } else {
      StrictNotACharacter(s, 0);
      return 0;
    }
    if i + length > |value| {
      StrictNotACharacter(s, |s|);
      return 0;
    }
    var j := 1;
    while j < length
      invariant 1 <= j <= length && codepoint == Collected(s, length, j)
      invariant forall k :: 1 <= k < j ==> IsTail(s[k])
    {
      var continuation := value[i + j];
      if !(0x80 <= continuation < 0xC0) {
        StrictNotACharacter(s, j);
        return 0;
      }
      codepoint := codepoint * 64 + (continuation as int - 0x80);
      j := j + 1;
    }
    StrictChecksMatchSyntax(s, length);
    var refused := !IsScalar(codepoint) || (length == 3 && codepoint < 0x800) || (length == 4 && codepoint < 0x10000) ||
                   (length == 3 && 0xD800 <= codepoint <= 0xDFFF);
    return if refused then 0 else length;
  }

  /** valid_utf8 of the service. */
  method ServiceValidUtf8(value: seq<Byte>) returns (ok: bool)
    ensures ok <==> Utf8Octets(value)
  {
    hide CharLength;
    var i := 0;
    Whole(value);
    while i < |value|
      invariant 0 <= i <= |value| && (Utf8Octets(value) <==> Utf8Octets(value[i..]))
    {
      OctetsStep(value, i);
      var n := ServiceCharacter(value, i);
      if n == 0 {
        return false;
      }
      i := i + n;
    }
    return true;
  }
}
