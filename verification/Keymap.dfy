/** Keys to syllables (engine/src/bopomofo/keymap.cpp). */
module Keymap {
  import opened Wrappers
  import opened Utf
  import opened Syllables

  type Key = nat

  datatype Layout = Standard | Hsu

  datatype KeyStatus = Rejected | Composing | Completed

  datatype KeyResult = KeyResult(status: KeyStatus, alternatives: seq<seq<Unit>>)

  function Lowered(key: Key): Key {
    if 'A' as int <= key <= 'Z' as int then key + 32 else key
  }

  /** The symbol of a key in the standard layout, 0 for a key without one. */
  function StandardSymbol(key: Key): Symbol {
    if key == 0x31 then 0x3105
    else if key == 0x32 then 0x3109
    else if key == 0x35 then 0x3113
    else if key == 0x38 then 0x311A
    else if key == 0x39 then 0x311E
    else if key == 0x30 then 0x3122
    else if key == 0x2D then 0x3126
    else if key == 0x71 then 0x3106
    else if key == 0x77 then 0x310A
    else if key == 0x65 then 0x310D
    else if key == 0x72 then 0x3110
    else if key == 0x74 then 0x3114
    else if key == 0x79 then 0x3117
    else if key == 0x75 then 0x3127
    else if key == 0x69 then 0x311B
    else if key == 0x6F then 0x311F
    else if key == 0x70 then 0x3123
    else if key == 0x61 then 0x3107
    else if key == 0x73 then 0x310B
    else if key == 0x64 then 0x310E
    else if key == 0x66 then 0x3111
    else if key == 0x67 then 0x3115
    else if key == 0x68 then 0x3118
    else if key == 0x6A then 0x3128
    else if key == 0x6B then 0x311C
    else if key == 0x6C then 0x3120
    else if key == 0x3B then 0x3124
    else if key == 0x7A then 0x3108
    else if key == 0x78 then 0x310C
    else if key == 0x63 then 0x310F
    else if key == 0x76 then 0x3112
    else if key == 0x62 then 0x3116
    else if key == 0x6E then 0x3119
    else if key == 0x6D then 0x3129
    else if key == 0x2C then 0x311D
    else if key == 0x2E then 0x3121
    else if key == 0x2F then 0x3125
    else if key == 0x20 then SPACE
    else if key == 0x36 then ACUTE
    else if key == 0x33 then CARON
    else if key == 0x34 then GRAVE
    else if key == 0x37 then DOT
    else 0
  }

  function LookupKey(key: Key, acceptUppercase: bool): Option<Symbol> {
    var k := if acceptUppercase then Lowered(key) else key;
    if StandardSymbol(k) != 0 then Some(StandardSymbol(k)) else None
  }

  // The initials and finals the Hsu rules name.
  const G: Symbol := 0x310D
  const JI: Symbol := 0x3110
  const QI: Symbol := 0x3111
  const XI: Symbol := 0x3112
  const ZHI: Symbol := 0x3113
  const CHI: Symbol := 0x3114
  const SHI: Symbol := 0x3115
  const I: Symbol := 0x3127
  const U: Symbol := 0x3128
  const IU: Symbol := 0x3129

  predicate IsHsuEndKey(key: Key, s: Syllable) {
    !s.Empty() && (key == 'd' as int || key == 'f' as int || key == 'j' as int || key == 's' as int || key == ' ' as int)
  }

  function HsuTone(key: Key): Symbol {
    if key == 'd' as int then ACUTE
    else if key == 'f' as int then CARON
    else if key == 'j' as int then GRAVE
    else if key == 's' as int then DOT
    else SPACE
  }

  /** A lone initial before a tone: the retroflex counterpart, or the final typed with the same key. */
  function HsuLone(s: Syllable): Syllable {
    if s.medial != 0 || s.final != 0 then s
    else if s.initial == JI then s.(initial := ZHI)
    else if s.initial == QI then s.(initial := CHI)
    else if s.initial == XI then s.(initial := SHI)
    else if s.initial == 0x310F then s.(initial := 0, final := 0x311B)
    else if s.initial == G then s.(initial := 0, final := 0x311C)
    else if s.initial == 0x3107 then s.(initial := 0, final := 0x3122)
    else if s.initial == 0x310B then s.(initial := 0, final := 0x3123)
    else if s.initial == 0x310E then s.(initial := 0, final := 0x3124)
    else if s.initial == 0x310C then s.(initial := 0, final := 0x3126)
    else s
  }

  /** The delayed change of the G series before I or IU. */
  function HsuPalatal(s: Syllable): Syllable {
    if s.initial == G && (s.medial == I || s.medial == IU) then s.(initial := JI) else s
  }

  function HsuEnded(s: Syllable, key: Key): Syllable {
    HsuPalatal(HsuLone(s)).(tone := HsuTone(key))
  }

  /** The symbol of a letter key, which may depend on what was typed before it. */
  function HsuSymbol(s: Syllable, key: Key): Symbol {
    var after := s.initial != 0 || s.medial != 0;
    if key == 'a' as int then (if after then 0x311F else 0x3118)
    else if key == 'b' as int then 0x3105
    else if key == 'c' as int then SHI
    else if key == 'd' as int then 0x3109
    else if key == 'e' as int then (if s.medial != 0 then 0x311D else I)
    else if key == 'f' as int then 0x3108
    else if key == 'g' as int then (if after then 0x311C else G)
    else if key == 'h' as int then (if after then 0x311B else 0x310F)
    else if key == 'i' as int then 0x311E
    else if key == 'j' as int then ZHI
    else if key == 'k' as int then (if after then 0x3124 else 0x310E)
    else if key == 'l' as int then (if after then 0x3125 else 0x310C)
    else if key == 'm' as int then (if after then 0x3122 else 0x3107)
    else if key == 'n' as int then (if after then 0x3123 else 0x310B)
    else if key == 'o' as int then 0x3121
    else if key == 'p' as int then 0x3106
    else if key == 'r' as int then 0x3116
    else if key == 's' as int then 0x3119
    else if key == 't' as int then 0x310A
    else if key == 'u' as int then IU
    else if key == 'v' as int then CHI
    else if key == 'w' as int then 0x3120
    else if key == 'x' as int then U
    else if key == 'y' as int then 0x311A
    else if key == 'z' as int then 0x3117
    else 0
  }

  /** Before U, or a final without a medial, the palatal initials become retroflex. */
  function HsuRetroflex(s: Syllable, symbol: Symbol): Syllable {
    if !(symbol == U || (IsFinal(symbol) && s.medial == 0)) then s
    else if s.initial == JI then s.(initial := ZHI)
    else if s.initial == QI then s.(initial := CHI)
    else if s.initial == XI then s.(initial := SHI)
    else s
  }

  /** Before I or IU the retroflex initials become palatal. */
  function HsuRepalatal(s: Syllable, symbol: Symbol): Syllable {
    if !(symbol == I || symbol == IU) then s
    else if s.initial == ZHI then s.(initial := JI)
    else if s.initial == CHI then s.(initial := QI)
    else if s.initial == SHI then s.(initial := XI)
    else s
  }

  function HsuTyped(s: Syllable, symbol: Symbol): Syllable {
    Overwritten(HsuRepalatal(HsuRetroflex(HsuPalatal(s), symbol), symbol), symbol)
  }

  /** The syllable after a key; a rejected key leaves it alone. */
  function Typed(s: Syllable, layout: Layout, key: Key, acceptUppercase: bool): Syllable {
    if !acceptUppercase && 'A' as int <= key <= 'Z' as int then s
    else
      var k := if acceptUppercase then Lowered(key) else key;
      match layout
      case Hsu =>
        if IsHsuEndKey(k, s) then HsuEnded(s, k)
        else if HsuSymbol(s, k) == 0 then s
        else HsuTyped(s, HsuSymbol(s, k))
      case Standard =>
        match LookupKey(k, acceptUppercase)
        case None => s
        case Some(symbol) => if Accepts(s, symbol) then Placed(s, symbol) else Overwritten(s, symbol)
  }

  function StatusAfter(s: Syllable, layout: Layout, key: Key, acceptUppercase: bool): KeyStatus {
    if !acceptUppercase && 'A' as int <= key <= 'Z' as int then Rejected
    else
      var k := if acceptUppercase then Lowered(key) else key;
      var typed := Typed(s, layout, key, acceptUppercase);
      match layout
      case Hsu =>
        if !IsHsuEndKey(k, s) && HsuSymbol(s, k) == 0 then Rejected
        else if typed.Complete() then Completed
        else Composing
      case Standard =>
        match LookupKey(k, acceptUppercase)
        case None => Rejected
        case Some(symbol) =>
          if !Accepts(s, symbol) && !Overwrites(s, symbol) then Rejected
          else if IsTone(symbol) && typed.Complete() then Completed
          else Composing
  }

  /** What later proofs need of a key: an accepted key leaves a syllable with a symbol in it, and a
      completed one is complete. */
  lemma TypedKeepsSomething(s: Syllable, layout: Layout, key: Key, acceptUppercase: bool)
    ensures StatusAfter(s, layout, key, acceptUppercase) != Rejected ==> !Typed(s, layout, key, acceptUppercase).Empty()
    ensures StatusAfter(s, layout, key, acceptUppercase) == Completed ==> Typed(s, layout, key, acceptUppercase).Complete()
    ensures StatusAfter(s, layout, key, acceptUppercase) == Rejected ==> Typed(s, layout, key, acceptUppercase) == s
  {
  }

  /** Typing leaves every part of the syllable of its kind. */
  lemma TypedStaysProper(s: Syllable, layout: Layout, key: Key, acceptUppercase: bool)
    requires s.Proper()
    ensures Typed(s, layout, key, acceptUppercase).Proper()
  {
    hide HsuSymbol, HsuTyped, HsuEnded, StandardSymbol;
    var k := if acceptUppercase then Lowered(key) else key;
    HsuEndedProper(s, k);
    HsuTypedProper(s, HsuSymbol(s, k));
    var symbol := LookupKey(k, acceptUppercase);
    if symbol.Some? {
      PlacedProper(s, symbol.value);
    }
  }

  lemma PlacedProper(s: Syllable, symbol: Symbol)
    requires s.Proper()
    ensures Placed(s, symbol).Proper() && Overwritten(s, symbol).Proper()
  {
  }

  lemma HsuEndedProper(s: Syllable, key: Key)
    requires s.Proper()
    ensures HsuEnded(s, key).Proper()
  {
    assert HsuLone(s).Proper();
    assert HsuPalatal(HsuLone(s)).Proper();
  }

  lemma HsuTypedProper(s: Syllable, symbol: Symbol)
    requires s.Proper()
    ensures HsuTyped(s, symbol).Proper()
  {
    assert HsuPalatal(s).Proper();
    assert HsuRetroflex(HsuPalatal(s), symbol).Proper();
    PlacedProper(HsuRepalatal(HsuRetroflex(HsuPalatal(s), symbol), symbol), symbol);
  }

  method HsuEnd(cell: SyllableCell, key: Key)
    requires IsHsuEndKey(key, cell.Value())
    modifies cell
    ensures cell.Value() == HsuEnded(old(cell.Value()), key)
  {
    var ok;
    if cell.medial == 0 && cell.final == 0 {
      match cell.initial {
        case 0x3110 => ok := cell.Overwrite(ZHI);
        case 0x3111 => ok := cell.Overwrite(CHI);
        case 0x3112 => ok := cell.Overwrite(SHI);
        case 0x310F => ok := cell.RemoveInitial(); ok := cell.Overwrite(0x311B);
        case 0x310D => ok := cell.RemoveInitial(); ok := cell.Overwrite(0x311C);
        case 0x3107 => ok := cell.RemoveInitial(); ok := cell.Overwrite(0x3122);
        case 0x310B => ok := cell.RemoveInitial(); ok := cell.Overwrite(0x3123);
        case 0x310E => ok := cell.RemoveInitial(); ok := cell.Overwrite(0x3124);
        case 0x310C => ok := cell.RemoveInitial(); ok := cell.Overwrite(0x3126);
        case _ =>
      }
    }
    if cell.initial == G && (cell.medial == I || cell.medial == IU) {
      ok := cell.Overwrite(JI);
    }
    ok := cell.Overwrite(HsuTone(key));
  }

  method HsuType(cell: SyllableCell, symbol: Symbol)
    modifies cell
    ensures cell.Value() == HsuTyped(old(cell.Value()), symbol)
  {
    var ok;
    if cell.initial == G && (cell.medial == I || cell.medial == IU) {
      ok := cell.Overwrite(JI);
    }
    if symbol == U || (IsFinal(symbol) && cell.medial == 0) {
      match cell.initial {
        case 0x3110 => ok := cell.Overwrite(ZHI);
        case 0x3111 => ok := cell.Overwrite(CHI);
        case 0x3112 => ok := cell.Overwrite(SHI);
        case _ =>
      }
    }
    if symbol == I || symbol == IU {
      match cell.initial {
        case 0x3113 => ok := cell.Overwrite(JI);
        case 0x3114 => ok := cell.Overwrite(QI);
        case 0x3115 => ok := cell.Overwrite(XI);
        case _ =>
      }
    }
    ok := cell.Overwrite(symbol);
  }

  /** The Hsu alternative readings of a first-tone reading, by its text. */
  const HSU_ALTERNATIVES: map<seq<Unit>, seq<seq<Unit>>> := map[
    [0x3118, 0x20] := [[0x311F, 0x20]], [0x3127, 0x20] := [[0x311D, 0x20]], [0x3119, 0x20] := [[0x2D9]],
    [0x3109, 0x20] := [[0x2CA]], [0x3108, 0x20] := [[0x2C7]], [0x311C, 0x20] := [[0x310D, 0x20]],
    [0x311B, 0x20] := [[0x310F, 0x20]], [0x3113, 0x20] := [[0x3110, 0x20], [0x2CB]],
    [0x3124, 0x20] := [[0x310E, 0x20]], [0x3126, 0x20] := [[0x310C, 0x20], [0x3125, 0x20]],
    [0x3115, 0x20] := [[0x3112, 0x20]], [0x3114, 0x20] := [[0x3111, 0x20]], [0x3123, 0x20] := [[0x310B, 0x20]],
    [0x3122, 0x20] := [[0x3107, 0x20]]]

  function Alternatives(s: Syllable, layout: Layout): seq<seq<Unit>> {
    if layout == Hsu && s.Text() in HSU_ALTERNATIVES then HSU_ALTERNATIVES[s.Text()] else []
  }

  method ApplyHsuKey(cell: SyllableCell, key: Key) returns (result: KeyResult)
    modifies cell
    ensures result.status == if !IsHsuEndKey(key, old(cell.Value())) && HsuSymbol(old(cell.Value()), key) == 0 then Rejected
                             else if cell.Value().Complete() then Completed else Composing
    ensures cell.Value() == if IsHsuEndKey(key, old(cell.Value())) then HsuEnded(old(cell.Value()), key)
                            else if HsuSymbol(old(cell.Value()), key) == 0 then old(cell.Value())
                            else HsuTyped(old(cell.Value()), HsuSymbol(old(cell.Value()), key))
    ensures result.alternatives == if result.status == Completed then Alternatives(cell.Value(), Hsu) else []
  {
    var s := cell.Read();
    if IsHsuEndKey(key, s) {
      HsuEnd(cell, key);
    } else {
      var symbol := HsuSymbol(s, key);
      if symbol == 0 {
        return KeyResult(Rejected, []);
      }
      HsuType(cell, symbol);
    }
    s := cell.Read();
    if s.Complete() {
      result := KeyResult(Completed, Alternatives(s, Hsu));
    } else {
      result := KeyResult(Composing, []);
    }
  }

  /** Works on a copy, so that a rejected key changes nothing. */
  method ApplyBopomofoKey(cell: SyllableCell, layout: Layout, key: Key, acceptUppercase: bool) returns (result: KeyResult)
    modifies cell
    ensures result.status == StatusAfter(old(cell.Value()), layout, key, acceptUppercase)
    ensures cell.Value() == Typed(old(cell.Value()), layout, key, acceptUppercase)
    ensures result.alternatives == if result.status == Completed then Alternatives(cell.Value(), layout) else []
  {
    var k := key;
    if acceptUppercase {
      k := Lowered(key);
    } else if 'A' as int <= key <= 'Z' as int {
      return KeyResult(Rejected, []);
    }
    var s := cell.Read();
    var candidate := new SyllableCell(s);
    if layout == Hsu {
      result := ApplyHsuKey(candidate, k);
    } else {
      var symbol := LookupKey(k, acceptUppercase);
      if symbol.None? {
        return KeyResult(Rejected, []);
      }
      var ok := candidate.Accept(symbol.value);
      if !ok {
        ok := candidate.Overwrite(symbol.value);
      }
      if !ok {
        return KeyResult(Rejected, []);
      }
      var typed := candidate.Read();
      result := KeyResult(if IsTone(symbol.value) && typed.Complete() then Completed else Composing, []);
    }
    if result.status == Rejected {
      return;
    }
    cell.initial, cell.medial, cell.final, cell.tone := candidate.initial, candidate.medial, candidate.final, candidate.tone;
  }
}
