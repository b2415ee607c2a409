/** Bopomofo syllables (engine/src/bopomofo/syllable.cpp). */
module Syllables {
  import opened Utf

  type Symbol = nat

  const SPACE: Symbol := 0x20
  const ACUTE: Symbol := 0x2CA
  const CARON: Symbol := 0x2C7
  const GRAVE: Symbol := 0x2CB
  const DOT: Symbol := 0x2D9

  /** The 21 initials are consecutive code points, as are the 13 finals and the 3 medials. */
  predicate IsInitial(symbol: Symbol) { 0x3105 <= symbol <= 0x3119 }

  predicate IsFinal(symbol: Symbol) { 0x311A <= symbol <= 0x3126 }

  predicate IsMedial(symbol: Symbol) { 0x3127 <= symbol <= 0x3129 }

  predicate IsTone(symbol: Symbol) {
    symbol == SPACE || symbol == ACUTE || symbol == CARON || symbol == GRAVE || symbol == DOT
  }

  /** The value of a syllable; 0 marks a missing part. */
  datatype Syllable = Syllable(initial: Symbol, medial: Symbol, final: Symbol, tone: Symbol) {
    predicate Empty() {
      initial == 0 && medial == 0 && final == 0 && tone == 0
    }

    predicate Complete() {
      tone != 0 && (initial != 0 || medial != 0 || final != 0)
    }

    /** Every part is missing or of its kind. */
    predicate Proper() {
      (initial == 0 || IsInitial(initial)) && (medial == 0 || IsMedial(medial)) && (final == 0 || IsFinal(final)) &&
      (tone == 0 || IsTone(tone))
    }

    function Text(): seq<Unit> {
      Bmp(initial) + Bmp(medial) + Bmp(final) + Bmp(tone)
    }
  }

  const NO_SYLLABLE := Syllable(0, 0, 0, 0)

  function Bmp(symbol: Symbol): seq<Unit> {
    if symbol == 0 then [] else [symbol % 0x1_0000]
  }

  /** Whether `symbol` can follow what the syllable already holds. */
  predicate Accepts(s: Syllable, symbol: Symbol) {
    !s.Complete() &&
    if IsInitial(symbol) then s.initial == 0 && s.medial == 0 && s.final == 0
    else if IsMedial(symbol) then s.medial == 0 && s.final == 0
    else if IsFinal(symbol) then s.final == 0
    else IsTone(symbol) && s.tone == 0
  }

  /** Whether `symbol` can replace its own kind of part; a tone needs something to stand on. */
  predicate Overwrites(s: Syllable, symbol: Symbol) {
    IsInitial(symbol) || IsMedial(symbol) || IsFinal(symbol) || (IsTone(symbol) && !s.Empty())
  }

  /** The syllable with the part that `symbol` is a kind of set to it. */
  function Placed(s: Syllable, symbol: Symbol): Syllable {
    if IsInitial(symbol) then s.(initial := symbol)
    else if IsMedial(symbol) then s.(medial := symbol)
    else if IsFinal(symbol) then s.(final := symbol)
    else if IsTone(symbol) then s.(tone := symbol)
    else s
  }

  function Overwritten(s: Syllable, symbol: Symbol): Syllable {
    if Overwrites(s, symbol) then Placed(s, symbol) else s
  }

  /** The syllable without its last part. */
  function Popped(s: Syllable): Syllable {
    if s.tone != 0 then s.(tone := 0)
    else if s.final != 0 then s.(final := 0)
    else if s.medial != 0 then s.(medial := 0)
    else s.(initial := 0)
  }

  /** Accepting appends exactly the new symbol to the text, or inserts it before a tone typed early. */
  lemma AcceptedText(s: Syllable, symbol: Symbol)
    requires Accepts(s, symbol)
    ensures var front := s.(tone := 0).Text();
      Placed(s, symbol).Text() == if IsTone(symbol) then front + [symbol] else front + [symbol] + Bmp(s.tone)
  {
    assert 0 < symbol < 0x1_0000;
  }

  /** Backspace undoes an accepted symbol when no tone was typed before it. */
  lemma PopUndoesAccept(s: Syllable, symbol: Symbol)
    requires Accepts(s, symbol) && (s.tone == 0 || IsTone(symbol))
    ensures Popped(Placed(s, symbol)) == s
  {
  }

  /** Popping shortens the text by its last symbol, and fails only on an empty syllable. */
  lemma PoppedText(s: Syllable)
    ensures s.Empty() ==> Popped(s) == s
    ensures !s.Empty() ==> |s.Text()| > 0 && Popped(s).Text() == s.Text()[..|s.Text()| - 1]
  {
  }

  /** The mutable syllable of the source. */
  class SyllableCell {
    var initial: Symbol
    var medial: Symbol
    var final: Symbol
    var tone: Symbol

    ghost function Value(): Syllable
      reads this
    {
      Syllable(initial, medial, final, tone)
    }

    constructor (s: Syllable)
      ensures Value() == s
    {
      initial, medial, final, tone := s.initial, s.medial, s.final, s.tone;
    }

    method Read() returns (s: Syllable)
      ensures s == Value()
    {
      s := Syllable(initial, medial, final, tone);
    }

    method Accept(symbol: Symbol) returns (ok: bool)
      modifies this
      ensures ok == Accepts(old(Value()), symbol)
      ensures Value() == if ok then Placed(old(Value()), symbol) else old(Value())
    {
      if tone != 0 && (initial != 0 || medial != 0 || final != 0) {
        return false;
      }
      if IsInitial(symbol) {
        if initial != 0 || medial != 0 || final != 0 {
          return false;
        }
        initial := symbol;
        return true;
      }
      if IsMedial(symbol) {
        if medial != 0 || final != 0 {
          return false;
        }
        medial := symbol;
        return true;
      }
      if IsFinal(symbol) {
        if final != 0 {
          return false;
        }
        final := symbol;
        return true;
      }
      if IsTone(symbol) {
        if tone != 0 {
          return false;
        }
        tone := symbol;
        return true;
      }
      return false;
    }

    method Overwrite(symbol: Symbol) returns (ok: bool)
      modifies this
      ensures ok == Overwrites(old(Value()), symbol)
      ensures Value() == Overwritten(old(Value()), symbol)
    {
      if IsInitial(symbol) {
        initial := symbol;
        return true;
      }
      if IsMedial(symbol) {
        medial := symbol;
        return true;
      }
      if IsFinal(symbol) {
        final := symbol;
        return true;
      }
      if IsTone(symbol) {
        if initial == 0 && medial == 0 && final == 0 && tone == 0 {
          return false;
        }
        tone := symbol;
        return true;
      }
      return false;
    }

    method PopBack() returns (removed: bool)
      modifies this
      ensures removed == !old(Value()).Empty()
      ensures Value() == Popped(old(Value()))
    {
      if tone != 0 {
        tone := 0;
        return true;
      }
      if final != 0 {
        final := 0;
        return true;
      }
      if medial != 0 {
        medial := 0;
        return true;
      }
      if initial != 0 {
        initial := 0;
        return true;
      }
      return false;
    }

    method RemoveInitial() returns (removed: bool)
      modifies this
      ensures removed == (old(initial) != 0)
      ensures Value() == old(Value()).(initial := 0)
    {
      removed := initial != 0;
      initial := 0;
    }
  }
}
