/** What the two keyboard layouts spell (engine/src/bopomofo/keymap.cpp). */
module KeyRules {
  import opened Utf
  import opened Syllables
  import opened Keymap

  // ----- typing key by key -----

  /** The syllable that `keys` make of `s`. */
  function TypedKeys(s: Syllable, layout: Layout, keys: seq<Key>): Syllable
    decreases |keys|
  {
    if keys == [] then s else TypedKeys(Typed(s, layout, keys[0], true), layout, keys[1..])
  }

  /** Every key is taken, and only the last one completes the syllable. */
  predicate CompletesLast(s: Syllable, layout: Layout, keys: seq<Key>)
    decreases |keys|
  {
    if keys == [] then false
    else if |keys| == 1 then StatusAfter(s, layout, keys[0], true) == Completed
    else StatusAfter(s, layout, keys[0], true) == Composing && CompletesLast(Typed(s, layout, keys[0], true), layout, keys[1..])
  }

  // ----- spelling in the Hsu layout -----

  predicate IsPalatal(initial: Symbol) { 0x3110 <= initial <= 0x3112 }

  predicate IsRetroflex(initial: Symbol) { 0x3113 <= initial <= 0x3115 }

  /** One key serves a palatal and a retroflex initial. */
  function InitialKey(initial: Symbol): char {
    if initial == 0x3105 then 'b' else if initial == 0x3106 then 'p' else if initial == 0x3107 then 'm'
    else if initial == 0x3108 then 'f' else if initial == 0x3109 then 'd' else if initial == 0x310A then 't'
    else if initial == 0x310B then 'n' else if initial == 0x310C then 'l' else if initial == 0x310D then 'g'
    else if initial == 0x310E then 'k' else if initial == 0x310F then 'h'
    else if initial == 0x3110 || initial == 0x3113 then 'j'
    else if initial == 0x3111 || initial == 0x3114 then 'v'
    else if initial == 0x3112 || initial == 0x3115 then 'c'
    else if initial == 0x3116 then 'r' else if initial == 0x3117 then 'z' else if initial == 0x3118 then 'a'
    else 's'
  }

  function MedialKey(medial: Symbol): char {
    if medial == 0x3127 then 'e' else if medial == 0x3128 then 'x' else 'u'
  }

  function FinalKey(final: Symbol): char {
    if final == 0x311A then 'y' else if final == 0x311B then 'h' else if final == 0x311C then 'g'
    else if final == 0x311D then 'e' else if final == 0x311E then 'i' else if final == 0x311F then 'a'
    else if final == 0x3120 then 'w' else if final == 0x3121 then 'o' else if final == 0x3122 then 'm'
    else if final == 0x3123 then 'n' else if final == 0x3124 then 'k' else 'l'
  }

  function ToneKey(tone: Symbol): char {
    if tone == ACUTE then 'd' else if tone == CARON then 'f' else if tone == GRAVE then 'j' else if tone == DOT then 's' else ' '
  }

  /** The syllables the Hsu layout can spell: palatal initials stand before the first and third medial only, retroflex
      ones and G before neither; a lone initial whose key also means a final, or a palatal one, cannot be spelled, nor
      can lone finals without a key of their own. */
  predicate Spellable(s: Syllable) {
    && s.Proper() && s.Complete()
    && (IsPalatal(s.initial) ==> s.medial == 0x3127 || s.medial == 0x3129)
    && (IsRetroflex(s.initial) || s.initial == 0x310D ==> s.medial != 0x3127 && s.medial != 0x3129)
    && (s.medial == 0 && s.final == 0 ==> s.initial != 0x3107 && !(0x310B <= s.initial <= 0x310F))
    && (s.final == 0x311D ==> s.medial != 0)
    && (s.final == 0x311F || s.final == 0x3125 ==> s.initial != 0 || s.medial != 0)
    && (s.final == 0x3126 ==> s.initial == 0 && s.medial == 0)
  }

  function PartKeys(symbol: Symbol, key: char): seq<Key> {
    if symbol == 0 then [] else [key as int]
  }

  function Spelling(s: Syllable): seq<Key> {
    PartKeys(s.initial, InitialKey(s.initial)) + (PartKeys(s.medial, MedialKey(s.medial)) +
      (PartKeys(s.final, FinalKey(s.final)) + [ToneKey(s.tone) as int]))
  }

  /** What the initial's key leaves before anything follows. */
  function Plain(initial: Symbol): Symbol {
    if IsPalatal(initial) then initial + 3 else initial
  }

  lemma TypesInitial(initial: Symbol)
    requires IsInitial(initial)
    ensures Typed(NO_SYLLABLE, Hsu, InitialKey(initial) as int, true) == Syllable(Plain(initial), 0, 0, 0)
    ensures StatusAfter(NO_SYLLABLE, Hsu, InitialKey(initial) as int, true) == Composing
  {
  }

  lemma TypesMedial(initial: Symbol, medial: Symbol)
    requires (initial == 0 || IsInitial(initial)) && IsMedial(medial)
    requires IsPalatal(initial) ==> medial == 0x3127 || medial == 0x3129
    requires IsRetroflex(initial) || initial == 0x310D ==> medial == 0x3128
    ensures Typed(Syllable(Plain(initial), 0, 0, 0), Hsu, MedialKey(medial) as int, true) == Syllable(initial, medial, 0, 0)
    ensures StatusAfter(Syllable(Plain(initial), 0, 0, 0), Hsu, MedialKey(medial) as int, true) == Composing
  {
  }

  lemma TypesFinal(s: Syllable)
    requires Spellable(s) && s.final != 0 && (s.initial != 0 || s.medial != 0)
    ensures Typed(s.(final := 0, tone := 0), Hsu, FinalKey(s.final) as int, true) == s.(tone := 0)
    ensures StatusAfter(s.(final := 0, tone := 0), Hsu, FinalKey(s.final) as int, true) == Composing
  {
  }

  lemma TypesTone(s: Syllable)
    requires Spellable(s) && (s.initial != 0 || s.medial != 0)
    ensures Typed(s.(tone := 0), Hsu, ToneKey(s.tone) as int, true) == s
    ensures StatusAfter(s.(tone := 0), Hsu, ToneKey(s.tone) as int, true) == Completed
  {
  }

  /** A lone final is typed by its own key, or by an initial's key that the tone then turns into it. */
  lemma TypesLoneFinal(s: Syllable)
    requires Spellable(s) && s.initial == 0 && s.medial == 0
    ensures var one := Typed(NO_SYLLABLE, Hsu, FinalKey(s.final) as int, true);
      && StatusAfter(NO_SYLLABLE, Hsu, FinalKey(s.final) as int, true) == Composing
      && Typed(one, Hsu, ToneKey(s.tone) as int, true) == s && StatusAfter(one, Hsu, ToneKey(s.tone) as int, true) == Completed
  {
    hide Typed, StatusAfter, FinalKey, ToneKey;
    var one := BeginsLoneFinal(s.final);
    EndsLoneFinal(one, s);
  }

  /** What the key of a lone final first types. */
  predicate BeginsAs(one: Syllable, final: Symbol) {
    && one.medial == 0 && one.tone == 0
    && if one.initial == 0 then one.final == final
       else one.final == 0 && (one.initial, final) in {(0x310F, 0x311B), (0x310D, 0x311C), (0x3107, 0x3122), (0x310B, 0x3123), (0x310E, 0x3124), (0x310C, 0x3126)}
  }

  lemma BeginsLoneFinal(final: Symbol) returns (one: Syllable)
    requires IsFinal(final) && final != 0x311D && final != 0x311F && final != 0x3125
    ensures one == Typed(NO_SYLLABLE, Hsu, FinalKey(final) as int, true) && BeginsAs(one, final)
    ensures StatusAfter(NO_SYLLABLE, Hsu, FinalKey(final) as int, true) == Composing
  {
    one := Typed(NO_SYLLABLE, Hsu, FinalKey(final) as int, true);
  }

  lemma EndsLoneFinal(one: Syllable, s: Syllable)
    requires s.initial == 0 && s.medial == 0 && IsFinal(s.final) && IsTone(s.tone) && BeginsAs(one, s.final)
    ensures Typed(one, Hsu, ToneKey(s.tone) as int, true) == s && StatusAfter(one, Hsu, ToneKey(s.tone) as int, true) == Completed
  {
  }

  lemma {:induction false} FirstKey(s: Syllable, layout: Layout, key: Key, rest: seq<Key>)
    requires rest != []
    ensures TypedKeys(s, layout, [key] + rest) == TypedKeys(Typed(s, layout, key, true), layout, rest)
    ensures CompletesLast(s, layout, [key] + rest) <==>
      StatusAfter(s, layout, key, true) == Composing && CompletesLast(Typed(s, layout, key, true), layout, rest)
  {
    hide Typed, StatusAfter;
    assert ([key] + rest)[1..] == rest;
  }

  lemma {:induction false} LastKey(s: Syllable, layout: Layout, key: Key)
    ensures TypedKeys(s, layout, [key]) == Typed(s, layout, key, true)
    ensures CompletesLast(s, layout, [key]) <==> StatusAfter(s, layout, key, true) == Completed
  {
    hide Typed, StatusAfter;
    assert [key][1..] == [];
  }

  /** From the final on. */
  lemma SpellsRest(s: Syllable)
    requires Spellable(s) && (s.initial != 0 || s.medial != 0)
    ensures var keys := PartKeys(s.final, FinalKey(s.final)) + [ToneKey(s.tone) as int];
      TypedKeys(s.(final := 0, tone := 0), Hsu, keys) == s && CompletesLast(s.(final := 0, tone := 0), Hsu, keys)
  {
    hide Typed, StatusAfter, Spellable, FinalKey, ToneKey, TypedKeys, CompletesLast;
    TypesTone(s);
    LastKey(s.(tone := 0), Hsu, ToneKey(s.tone) as int);
    if s.final != 0 {
      TypesFinal(s);
      FirstKey(s.(final := 0, tone := 0), Hsu, FinalKey(s.final) as int, [ToneKey(s.tone) as int]);
    } else {
      assert s.(final := 0, tone := 0) == s.(tone := 0);
      assert [] + [ToneKey(s.tone) as int] == [ToneKey(s.tone) as int];
    }
  }

  /** From the medial on; without one the initial must already be what it stays. */
  lemma SpellsMedial(s: Syllable)
    requires Spellable(s) && (s.initial != 0 || s.medial != 0)
    ensures var keys := PartKeys(s.medial, MedialKey(s.medial)) + (PartKeys(s.final, FinalKey(s.final)) + [ToneKey(s.tone) as int]);
      var start := Syllable(Plain(s.initial), 0, 0, 0);
      TypedKeys(start, Hsu, keys) == s && CompletesLast(start, Hsu, keys)
  {
    hide Typed, StatusAfter, FinalKey, ToneKey, MedialKey, TypedKeys, CompletesLast;
    var rest := PartKeys(s.final, FinalKey(s.final)) + [ToneKey(s.tone) as int];
    SpellsRest(s);
    if s.medial != 0 {
      TypesMedial(s.initial, s.medial);
      FirstKey(Syllable(Plain(s.initial), 0, 0, 0), Hsu, MedialKey(s.medial) as int, rest);
      assert s.(final := 0, tone := 0) == Syllable(s.initial, s.medial, 0, 0);
    } else {
      assert s.(final := 0, tone := 0) == Syllable(Plain(s.initial), 0, 0, 0);
      assert [] + rest == rest;
    }
  }

  /** The Hsu layout spells every such syllable, part by part: no key is refused, and the tone key completes it. */
  lemma HsuSpells(s: Syllable)
    requires Spellable(s)
    ensures TypedKeys(NO_SYLLABLE, Hsu, Spelling(s)) == s && CompletesLast(NO_SYLLABLE, Hsu, Spelling(s))
  {
    hide Typed, StatusAfter, FinalKey, ToneKey, MedialKey, InitialKey, TypedKeys, CompletesLast;
    var rest := PartKeys(s.medial, MedialKey(s.medial)) + (PartKeys(s.final, FinalKey(s.final)) + [ToneKey(s.tone) as int]);
    if s.initial != 0 {
      TypesInitial(s.initial);
      SpellsMedial(s);
      FirstKey(NO_SYLLABLE, Hsu, InitialKey(s.initial) as int, rest);
    } else {
      assert [] + rest == rest;
      if s.medial != 0 {
        SpellsMedial(s);
      } else {
        TypesLoneFinal(s);
        var key, tone := FinalKey(s.final) as int, ToneKey(s.tone) as int;
        assert rest == [key] + [tone];
        FirstKey(NO_SYLLABLE, Hsu, key, [tone]);
        LastKey(Typed(NO_SYLLABLE, Hsu, key, true), Hsu, tone);
      }
    }
  }

  // ----- the rewritings one by one -----

  predicate IsRewritten(initial: Symbol) { initial == 0x3107 || 0x310B <= initial <= 0x3112 }

  /** A tone key: a lone palatal initial becomes its retroflex one, a lone initial whose key also means a final becomes
      that final, and G before the first or third medial becomes the first palatal. */
  lemma TonesRewrite(s: Syllable, key: Key)
    ensures var lone, e := s.medial == 0 && s.final == 0, HsuEnded(s, key);
      && e.medial == s.medial && e.tone == HsuTone(key)
      && (lone && s.initial == 0x3107 ==> e.initial == 0 && e.final == 0x3122)
      && (lone && s.initial == 0x310B ==> e.initial == 0 && e.final == 0x3123)
      && (lone && s.initial == 0x310C ==> e.initial == 0 && e.final == 0x3126)
      && (lone && s.initial == 0x310D ==> e.initial == 0 && e.final == 0x311C)
      && (lone && s.initial == 0x310E ==> e.initial == 0 && e.final == 0x3124)
      && (lone && s.initial == 0x310F ==> e.initial == 0 && e.final == 0x311B)
      && (lone && IsPalatal(s.initial) ==> e.initial == s.initial + 3 && e.final == 0)
      && (s.initial == 0x310D && (s.medial == 0x3127 || s.medial == 0x3129) ==> e.initial == 0x3110 && e.final == s.final)
      && (!(lone && IsRewritten(s.initial)) && !(s.initial == 0x310D && (s.medial == 0x3127 || s.medial == 0x3129)) ==>
            e == s.(tone := HsuTone(key)))
  {
  }

  /** A medial or a final: before the second medial, or a final without a medial, palatal initials become retroflex, and
      before the first or third medial the other way; G was palatal when it stood before those. */
  lemma PartsRewrite(s: Syllable, symbol: Symbol)
    requires IsMedial(symbol) || IsFinal(symbol)
    ensures var t := HsuTyped(s, symbol);
      var initial := if s.initial == 0x310D && (s.medial == 0x3127 || s.medial == 0x3129) then 0x3110 else s.initial;
      && t.tone == s.tone
      && (if IsMedial(symbol) then t.medial == symbol && t.final == s.final else t.final == symbol && t.medial == s.medial)
      && t.initial ==
           if (symbol == 0x3128 || (IsFinal(symbol) && s.medial == 0)) && IsPalatal(initial) then initial + 3
           else if (symbol == 0x3127 || symbol == 0x3129) && IsRetroflex(initial) then initial - 3
           else initial
  {
  }

  /** An initial replaces the one before it. */
  lemma InitialsReplace(s: Syllable, symbol: Symbol)
    requires IsInitial(symbol)
    ensures HsuTyped(s, symbol) == s.(initial := symbol)
  {
  }

  // ----- the standard layout -----

  /** The keys column by column, from the left: the initials, the medials and the finals in their order. */
  const INITIAL_KEYS := "1qaz2wsxedcrfv5tgbyhn"
  const MEDIAL_KEYS := "ujm"
  const FINAL_KEYS := "8ik,9ol.0p;/-"

  /** Each symbol of Bopomofo has one key of the standard layout, in the order of the columns. */
  lemma StandardInitials(symbol: Symbol)
    requires IsInitial(symbol)
    ensures StandardSymbol(INITIAL_KEYS[symbol - 0x3105] as int) == symbol
  {
  }

  lemma StandardRhymes(symbol: Symbol)
    ensures IsMedial(symbol) ==> StandardSymbol(MEDIAL_KEYS[symbol - 0x3127] as int) == symbol
    ensures IsFinal(symbol) ==> StandardSymbol(FINAL_KEYS[symbol - 0x311A] as int) == symbol
  {
  }

  lemma StandardTones()
    ensures StandardSymbol(' ' as int) == SPACE && StandardSymbol('6' as int) == ACUTE && StandardSymbol('3' as int) == CARON &&
            StandardSymbol('4' as int) == GRAVE && StandardSymbol('7' as int) == DOT
  {
  }

  lemma OneKeyEach(a: Key, b: Key)
    requires StandardSymbol(a) == StandardSymbol(b) != 0
    ensures a == b
  {
  }
}
