/** The reader of the protocol, which advances through one frame (engine/src/protocol/protocol.cpp and
    ime-unix-service/src/pipe/protocol.cpp). A method that fails returns None, where the source throws; the reader is
    not used afterwards. */
module Readers {
  import opened Wrappers
  import opened Sequences
  import opened Utf
  import opened Messages
  import opened Wire
  import opened Protocol
  import opened Frames

  /** What a read makes of the input: the parsed value and the rest, or a failure. */
  ghost predicate Reads<T>(p: Parsed<T>, r: Option<T>, left: Bytes) {
    match p
    case Failed => r.None?
    case Got(value, rest) => r == Some(value) && left == rest
  }

  function Prepended<T>(done: seq<T>, p: Parsed<seq<T>>): Parsed<seq<T>> {
    match p
    case Failed => Failed
    case Got(items, rest) => Got(done + items, rest)
  }

  lemma {:induction false} ManyStarts<T>(s: Bytes, count: nat, get: Bytes -> Parsed<T>)
    ensures Prepended([], GetMany(s, count, get)) == GetMany(s, count, get)
  {
    if GetMany(s, count, get).Got? {
      NothingAdded(GetMany(s, count, get).value);
    }
  }

  lemma ManyStep<T>(done: seq<T>, s: Bytes, left: nat, get: Bytes -> Parsed<T>)
    requires left > 0
    ensures get(s).Failed? ==> Prepended(done, GetMany(s, left, get)).Failed?
    ensures get(s).Got? ==> Prepended(done, GetMany(s, left, get)) == Prepended(done + [get(s).value], GetMany(get(s).rest, left - 1, get))
  {
    if get(s).Got? && GetMany(get(s).rest, left - 1, get).Got? {
      Associative(done, [get(s).value], GetMany(get(s).rest, left - 1, get).value);
    }
  }

  lemma {:induction false} ManyEnds<T>(done: seq<T>, s: Bytes, get: Bytes -> Parsed<T>)
    ensures Prepended(done, GetMany(s, 0, get)) == Got(done, s)
  {
    NothingAdded(done);
  }

  lemma NumberStep(s: Bytes, k: nat, width: nat, scale: nat)
    requires k < width <= |s|
    ensures scale * NumberAt(s[k..], width - k) == scale * s[k] + (256 * scale) * NumberAt(s[k + 1..], width - k - 1)
  {
    DropDrop(s, k, 1);
    Distribute(scale, s[k], NumberAt(s[k + 1..], width - k - 1));
  }

  lemma Distribute(scale: nat, a: nat, n: nat)
    ensures scale * (a + 256 * n) == scale * a + (256 * scale) * n
  {
  }

  /** valid_utf16, which both sides write as one pass. */
  method CheckUtf16(text: Text) returns (ok: bool)
    ensures ok == ValidUtf16(text)
  {
    var i := 0;
    Whole(text);
    while i < |text|
      invariant 0 <= i <= |text| && ValidUtf16(text) == ValidUtf16(text[i..])
      decreases |text| - i
    {
      PushOne(text, i);
      Utf16Step(text[i..]);
      if IsHigh(text[i]) {
        i := i + 1;
        if i >= |text| {
          return false;
        }
        if !IsLow(text[i]) {
          return false;
        }
        PushOne(text, i);
      } else if IsLow(text[i]) {
        return false;
      }
      i := i + 1;
    }
    Whole(text);
    return true;
  }

  lemma Utf16Step(s: Text)
    requires s != []
    ensures IsHigh(s[0]) ==> ValidUtf16(s) == (|s| > 1 && IsLow(s[1]) && ValidUtf16(s[1..][1..]))
    ensures !IsHigh(s[0]) ==> ValidUtf16(s) == (!IsLow(s[0]) && ValidUtf16(s[1..]))
  {
    if |s| > 1 {
      DropDrop(s, 1, 1);
    }
  }

  /** The value of all of `s`: each byte shifted behind the ones before it. */
  method Collect(s: Bytes) returns (result: nat)
    ensures result == NumberAt(s, |s|)
  {
    hide NumberAt;
    var scale: nat := 1;
    var k := 0;
    result := 0;
    Whole(s);
    while k < |s|
      invariant 0 <= k <= |s| && NumberAt(s, |s|) == result + scale * NumberAt(s[k..], |s| - k)
    {
      NumberStep(s, k, |s|, scale);
      result := result + scale * s[k] as int;
      scale := 256 * scale;
      k := k + 1;
    }
    NoBytes(s[k..], scale);
  }

  lemma {:induction false} NoBytes(s: Bytes, scale: nat)
    ensures scale * NumberAt(s, 0) == 0
  {
  }

  /** Only the bytes it covers matter to a number. */
  lemma {:induction false} NumberOfPrefix(s: Bytes, width: nat)
    requires width <= |s|
    ensures NumberAt(s[..width], width) == NumberAt(s, width)
  {
    if width > 0 {
      NumberOfPrefix(s[1..], width - 1);
      assert s[..width][1..] == s[1..][..width - 1];
    }
  }

  lemma {:induction false} NumberOfSlice(bytes: Bytes, offset: nat, width: nat)
    requires offset + width <= |bytes|
    ensures NumberAt(bytes[offset..offset + width], width) == NumberAt(bytes[offset..], width)
  {
    NumberOfPrefix(bytes[offset..], width);
    assert bytes[offset..offset + width] == bytes[offset..][..width];
  }

  class Reader {
    const bytes: Bytes
    var offset: nat

    ghost predicate Valid()
      reads this
    {
      offset <= |bytes|
    }

    ghost function Left(): Bytes
      requires Valid()
      reads this
    {
      bytes[offset..]
    }

    constructor (frame: Bytes)
      ensures Valid() && Left() == frame && bytes == frame
    {
      bytes := frame;
      offset := 0;
    }

    method Remaining() returns (n: nat)
      requires Valid()
      ensures n == |Left()|
    {
      n := |bytes| - offset;
    }

    method ReadU8() returns (r: Option<Byte>)
      requires Valid()
      modifies this
      ensures Valid() && r.Some? == (old(Left()) != [])
      ensures r.Some? ==> r.value == old(Left())[0] && Left() == old(Left())[1..]
    {
      if offset >= |bytes| {
        return None;
      }
      PushOne(bytes, offset);
      r := Some(bytes[offset]);
      offset := offset + 1;
    }

    method ReadU16() returns (r: Option<Unit>)
      requires Valid()
      modifies this
      ensures Valid() && r.Some? == (|old(Left())| >= 2)
      ensures r.Some? ==> r.value == NumberAt(old(Left()), 2) && Left() == old(Left())[2..]
    {
      if |bytes| - offset < 2 {
        return None;
      }
      ghost var s := Left();
      assert NumberAt(s, 2) == s[0] + 256 * (s[1] + 256 * NumberAt(s[1..][1..], 0));
      DropDrop(bytes, offset, 2);
      var unit: Unit := bytes[offset] as int + 256 * bytes[offset + 1] as int;
      offset := offset + 2;
      return Some(unit);
    }

    /** Four or eight bytes, low byte first. */
    method ReadNumber(width: nat) returns (r: Option<nat>)
      requires Valid()
      modifies this
      ensures Valid() && Reads(GetNumber(old(Left()), width), r, Left())
    {
      if |bytes| - offset < width {
        return None;
      }
      DropDrop(bytes, offset, width);
      var result := Collect(bytes[offset..offset + width]);
      NumberOfSlice(bytes, offset, width);
      offset := offset + width;
      return Some(result);
    }

    method ReadId() returns (r: Option<Id>)
      requires Valid()
      modifies this
      ensures Valid() && Reads(GetId(old(Left())), r, Left())
    {
      if |bytes| - offset < 16 {
        return None;
      }
      DropDrop(bytes, offset, 16);
      var id: Id := bytes[offset..offset + 16];
      assert id == Left()[..16];
      offset := offset + 16;
      return Some(id);
    }

    method ReadBool() returns (r: Option<bool>)
      requires Valid()
      modifies this
      ensures Valid() && Reads(GetBool(old(Left())), r, Left())
    {
      var b := ReadU8();
      return if b.None? then None else Some(b.value != 0);
    }

    method ReadFlag() returns (r: Option<bool>)
      requires Valid()
      modifies this
      ensures Valid() && Reads(GetFlag(old(Left())), r, Left())
    {
      var b := ReadU8();
      return if b.None? || b.value > 1 then None else Some(b.value != 0);
    }

    method ReadUtf8(side: Side) returns (r: Option<Bytes>)
      requires Valid()
      modifies this
      ensures Valid() && Reads(GetUtf8(old(Left())), r, Left())
    {
      hide Utf8Octets;
      var size := ReadNumber(4);
      if size.None? || size.value > MAX_UTF8 || size.value > |bytes| - offset {
        return None;
      }
      var text := bytes[offset..offset + size.value];
      assert text == Left()[..size.value];
      DropDrop(bytes, offset, size.value);
      offset := offset + size.value;
      var ok;
      if side == Client {
        ok := ClientValidUtf8(text);
      } else {
        ok := ServiceValidUtf8(text);
      }
      return if ok then Some(text) else None;
    }

    method ReadUtf16(limit: nat) returns (r: Option<Text>)
      requires Valid()
      modifies this
      ensures Valid() && Reads(GetText(old(Left()), limit), r, Left())
    {
      hide DecodeUtf16;
      var count := ReadNumber(4);
      if count.None? || count.value > limit || count.value > (|bytes| - offset) / 2 {
        return None;
      }
      var text := ReadUnits(count.value);
      var ok := CheckUtf16(text);
      return if ok then Some(text) else None;
    }

    method ReadUnits(count: nat) returns (text: Text)
      requires Valid() && 2 * count <= |Left()|
      modifies this
      ensures Valid() && text == UnitsAt(old(Left()), count) && Left() == old(Left())[2 * count..]
    {
      ghost var s := Left();
      text := [];
      var i := 0;
      Whole(s);
      while i < count
        invariant 0 <= i <= count && Valid() && 2 * count <= |s| && Left() == s[2 * i..]
        invariant UnitsAt(s, count) == text + UnitsAt(s[2 * i..], count - i)
      {
        DropDrop(s, 2 * i, 2);
        var unit := ReadU16();
        Associative(text, [unit.value], UnitsAt(s[2 * i + 2..], count - i - 1));
        text := text + [unit.value];
        i := i + 1;
      }
      NothingAdded(text);
    }

    method ReadScalar() returns (r: Option<nat>)
      requires Valid()
      modifies this
      ensures Valid() && Reads(GetScalar(old(Left())), r, Left())
    {
      var value := ReadNumber(4);
      return if value.None? || !IsScalar(value.value) then None else value;
    }

    /** A count that is plausible for what is left. */
    method ReadCount(minimum: nat) returns (r: Option<nat>)
      requires Valid() && minimum > 0
      modifies this
      ensures Valid() && r.Some? == (GetNumber(old(Left()), 4).Got? &&
        var n := GetNumber(old(Left()), 4); n.value <= MAX_REPEATED && n.value <= |n.rest| / minimum)
      ensures r.Some? ==> GetNumber(old(Left()), 4) == Got(r.value, Left())
    {
      var count := ReadNumber(4);
      return if count.None? || count.value > MAX_REPEATED || count.value > (|bytes| - offset) / minimum then None else count;
    }

    method ReadPaddingEntry() returns (r: Option<PaddingEntry>)
      requires Valid()
      modifies this
      ensures Valid() && Reads(GetPadding(old(Left())), r, Left())
    {
      hide GetText, GetScalar;
      var kind := ReadU8();
      if kind.None? {
        return None;
      }
      if kind.value == 0 {
        var text := ReadUtf16(MAX_BOPOMOFO);
        return if text.None? then None else Some(PaddingEntry(false, text.value, 0));
      }
      if kind.value == 1 {
        var c := ReadScalar();
        return if c.None? || c.value == 0 then None else Some(PaddingEntry(true, [], c.value));
      }
      return None;
    }

    method ReadPadding() returns (r: Option<seq<PaddingEntry>>)
      requires Valid()
      modifies this
      ensures Valid() && Reads(GetCounted(old(Left()), 1, GetPadding), r, Left())
    {
      hide GetPadding, GetMany;
      var count := ReadCount(1);
      if count.None? {
        return None;
      }
      ghost var s := Left();
      var all: seq<PaddingEntry> := [];
      ManyStarts(s, count.value, GetPadding);
      while |all| < count.value
        invariant Valid() && |all| <= count.value
        invariant GetMany(s, count.value, GetPadding) == Prepended(all, GetMany(Left(), count.value - |all|, GetPadding))
        decreases count.value - |all|
      {
        ManyStep(all, Left(), count.value - |all|, GetPadding);
        var entry := ReadPaddingEntry();
        if entry.None? {
          return None;
        }
        all := all + [entry.value];
      }
      ManyEnds(all, Left(), GetPadding);
      return Some(all);
    }

    method ReadList() returns (r: Option<seq<nat>>)
      requires Valid()
      modifies this
      ensures Valid() && Reads(GetList(old(Left())), r, Left())
    {
      hide GetScalar, GetMany;
      var count := ReadCount(4);
      if count.None? {
        return None;
      }
      ghost var s := Left();
      var all: seq<nat> := [];
      ManyStarts(s, count.value, GetScalar);
      while |all| < count.value
        invariant Valid() && |all| <= count.value
        invariant GetMany(s, count.value, GetScalar) == Prepended(all, GetMany(Left(), count.value - |all|, GetScalar))
        decreases count.value - |all|
      {
        ManyStep(all, Left(), count.value - |all|, GetScalar);
        var c := ReadScalar();
        if c.None? {
          return None;
        }
        all := all + [c.value];
      }
      ManyEnds(all, Left(), GetScalar);
      return Some(all);
    }

    method ReadCandidates() returns (r: Option<seq<seq<nat>>>)
      requires Valid()
      modifies this
      ensures Valid() && Reads(GetCounted(old(Left()), 4, GetList), r, Left())
    {
      hide GetList, GetMany;
      var count := ReadCount(4);
      if count.None? {
        return None;
      }
      ghost var s := Left();
      var all: seq<seq<nat>> := [];
      ManyStarts(s, count.value, GetList);
      while |all| < count.value
        invariant Valid() && |all| <= count.value
        invariant GetMany(s, count.value, GetList) == Prepended(all, GetMany(Left(), count.value - |all|, GetList))
        decreases count.value - |all|
      {
        ManyStep(all, Left(), count.value - |all|, GetList);
        var list := ReadList();
        if list.None? {
          return None;
        }
        all := all + [list.value];
      }
      ManyEnds(all, Left(), GetList);
      return Some(all);
    }

    method ReadEntry() returns (r: Option<CommitEntry>)
      requires Valid()
      modifies this
      ensures Valid() && Reads(GetEntry(old(Left())), r, Left())
    {
      hide GetText, GetScalar, GetFlag;
      var reading := ReadUtf16(64);
      if reading.None? {
        return None;
      }
      var character := ReadScalar();
      if character.None? {
        return None;
      }
      var manual := ReadFlag();
      if manual.None? {
        return None;
      }
      var literal := ReadFlag();
      if literal.None? || character.value == 0 || literal.value != (reading.value == []) {
        return None;
      }
      return Some(CommitEntry(reading.value, character.value, manual.value, literal.value));
    }

    method ReadEntries(side: Side) returns (r: Option<seq<CommitEntry>>)
      requires Valid()
      modifies this
      ensures Valid() && Reads(GetEntries(side, old(Left())), r, Left())
    {
      hide GetEntry, GetMany;
      var count := ReadNumber(4);
      if count.None? {
        return None;
      }
      if side == Client && (count.value > MAX_REPEATED || count.value > (|bytes| - offset) / 10) {
        return None;
      }
      if count.value == 0 || count.value > MAX_COMMIT_ENTRIES {
        return None;
      }
      ghost var s := Left();
      var all: seq<CommitEntry> := [];
      ManyStarts(s, count.value, GetEntry);
      while |all| < count.value
        invariant Valid() && |all| <= count.value
        invariant GetMany(s, count.value, GetEntry) == Prepended(all, GetMany(Left(), count.value - |all|, GetEntry))
        decreases count.value - |all|
      {
        ManyStep(all, Left(), count.value - |all|, GetEntry);
        var entry := ReadEntry();
        if entry.None? {
          return None;
        }
        all := all + [entry.value];
      }
      ManyEnds(all, Left(), GetEntry);
      return Some(all);
    }
  }
}
