/** Which edges the decoder has for given keys, and their scores (engine/src/input/mixed_input_decoder.cpp:15-37 and
    63-204), told by the readings the keys complete. */
module DecodedEdges {
  import opened Wrappers
  import opened Sequences
  import opened Utf
  import opened Syllables
  import opened Keymap
  import opened Compositions
  import opened MixedPaths
  import opened TopK
  import opened MixedDecoder
  import A = AsciiTokenizer

  predicate Capital(key: Key) {
    'A' as int <= key <= 'Z' as int
  }

  /** The tone that the reading ends in. */
  function ToneOf(reading: Text): nat
    requires reading != []
  {
    reading[|reading| - 1]
  }

  // ----- typing in the Hsu layout -----

  /** No unfinished syllable has a tone. */
  ghost predicate Toneless(b: Composition) {
    && b.caret <= |b.segments|
    && forall i :: 0 <= i < |b.segments| && !b.segments[i].readingFinalized ==> b.segments[i].syllable.tone == 0
  }

  /** A key completes a syllable without a tone exactly when it is a tone key. */
  lemma HsuTones(s: Syllable, key: Key)
    requires s.tone == 0
    ensures var typed, status := Typed(s, Hsu, key, true), StatusAfter(s, Hsu, key, true);
      && (status == Completed ==> typed.tone == HsuTone(Lowered(key)) && IsHsuEndKey(Lowered(key), s))
      && (status != Completed ==> typed.tone == 0)
  {
    hide HsuSymbol, HsuPalatal, HsuRetroflex, HsuRepalatal, HsuLone;
    HsuParts(s, Lowered(key));
  }

  lemma HsuParts(s: Syllable, key: Key)
    requires s.tone == 0
    ensures HsuTyped(s, HsuSymbol(s, key)).tone == 0
    ensures !s.Empty() ==> HsuEnded(s, key).Complete() && HsuEnded(s, key).tone == HsuTone(key)
  {
  }

  lemma ActiveIsToneless(b: Composition)
    requires Toneless(b)
    ensures ActiveSyllable(b).tone == 0
  {
  }

  lemma HsuKeyToneless(b: Composition, key: Key)
    requires Toneless(b)
    ensures Toneless(AddKey(b, key, Hsu, true).0)
  {
    hide Typed, StatusAfter, Natural;
    ActiveIsToneless(b);
    HsuTones(ActiveSyllable(b), key);
  }

  lemma {:induction false} HsuBodyToneless(b: Composition, keys: Text)
    requires b.caret <= |b.segments| && Toneless(b)
    ensures Toneless(AddBody(b, keys, Hsu, true).0)
    decreases |keys|
  {
    hide AddKey, Toneless;
    if keys != [] {
      HsuKeyToneless(b, keys[0]);
      HsuBodyToneless(AddKey(b, keys[0], Hsu, true).0, keys[1..]);
    }
  }

  // ----- the tone of a replayed reading -----

  /** The tone a completing key stands for. */
  function KeyTone(key: Key, layout: Layout): nat {
    match layout
    case Hsu => HsuTone(Lowered(key))
    case Standard => match LookupKey(key, true) case None => 0 case Some(symbol) => symbol
  }

  lemma CompletedTone(before: Syllable, key: Key, layout: Layout)
    requires layout == Hsu ==> before.tone == 0
    requires StatusAfter(before, layout, key, true) == Completed
    ensures var typed := Typed(before, layout, key, true);
      typed.tone == KeyTone(key, layout) && IsTone(typed.tone) && typed.Text() != [] && ToneOf(typed.Text()) == typed.tone
  {
    hide HsuSymbol, StandardSymbol;
    if layout == Hsu {
      HsuTones(before, key);
    } else {
      StandardTone(before, key);
    }
    TextEndsInTone(Typed(before, layout, key, true));
  }

  lemma StandardTone(before: Syllable, key: Key)
    requires StatusAfter(before, Standard, key, true) == Completed
    ensures LookupKey(key, true).Some? && IsTone(LookupKey(key, true).value) && Typed(before, Standard, key, true).tone == LookupKey(key, true).value
  {
    hide StandardSymbol;
    assert LookupKey(Lowered(key), true) == LookupKey(key, true);
  }

  lemma TextEndsInTone(s: Syllable)
    requires IsTone(s.tone)
    ensures s.Text() != [] && ToneOf(s.Text()) == s.tone
  {
    assert Bmp(s.tone) == [s.tone];
  }

  /** What a key that completes the only segment made of it. */
  lemma ToneKeyMakes(b: Composition, key: Key, layout: Layout)
    requires b.caret <= |b.segments| && b.caret == |b.segments|
    ensures var r := AddKey(b, key, layout, true);
      r.1.Some? && r.1.value.completed && |r.0.segments| == 1 ==>
        && StatusAfter(ActiveSyllable(b), layout, key, true) == Completed
        && r.0.segments[0] == TypedSegment(ActiveSyllable(b), layout, key, true)
  {
    hide Typed, StatusAfter, Natural;
  }

  lemma {:induction false} BodyAtEnd(b: Composition, keys: Text, layout: Layout, strict: bool)
    requires b.caret == |b.segments|
    ensures var r := AddBody(b, keys, layout, strict); r.0.caret == |r.0.segments|
    decreases |keys|
  {
    hide StatusAfter, TypedSegment, Natural;
    if keys != [] {
      BodyAtEnd(AddKey(b, keys[0], layout, true).0, keys[1..], layout, strict);
    }
  }

  /** A replayed reading ends in the tone that its last key stands for. */
  lemma ReplayedTone(body: Text, toneKey: Key, layout: Layout)
    requires ReplayedReading(body, toneKey, layout).Some?
    ensures var reading := ReplayedReading(body, toneKey, layout).value;
      reading != [] && ToneOf(reading) == KeyTone(toneKey, layout) && IsTone(ToneOf(reading))
    ensures layout == Hsu ==> 'd' as int == Lowered(toneKey) || 'f' as int == Lowered(toneKey) || 'j' as int == Lowered(toneKey) ||
                              's' as int == Lowered(toneKey) || ' ' as int == Lowered(toneKey)
  {
    hide AddKey, AddBody, Toneless, StatusAfter, Typed;
    var b := AddBody(EMPTY, body, layout, true).0;
    BodyAtEnd(EMPTY, body, layout, true);
    ToneKeyMakes(b, toneKey, layout);
    if layout == Hsu {
      EmptyToneless();
      HsuBodyToneless(EMPTY, body);
      ActiveIsToneless(b);
      HsuTones(ActiveSyllable(b), toneKey);
    }
    CompletedTone(ActiveSyllable(b), toneKey, layout);
  }

  lemma EmptyToneless()
    ensures Toneless(EMPTY)
  {
  }

  /** A key that completes a syllable, and is no capital letter, is an explicit tone key exactly when the reading does
      not end in the first tone's space. */
  lemma ExplicitExactly(body: Text, toneKey: Key, layout: Layout)
    requires ReplayedReading(body, toneKey, layout).Some? && !Capital(toneKey)
    ensures IsExplicitToneKey(toneKey, layout) <==> ToneOf(ReplayedReading(body, toneKey, layout).value) != SPACE
  {
    hide ReplayedReading, StandardSymbol;
    ReplayedTone(body, toneKey, layout);
  }

  /** Every key is taken and extends what is typed naturally. */
  predicate AllNatural(b: Composition, keys: Text, layout: Layout)
    requires b.caret <= |b.segments|
    decreases |keys|
  {
    if keys == [] then true
    else
      var step := AddKey(b, keys[0], layout, true);
      step.1.Some? && step.1.value.naturalExtension && AllNatural(step.0, keys[1..], layout)
  }

  lemma {:induction false} StrictBody(b: Composition, keys: Text, layout: Layout)
    requires b.caret <= |b.segments|
    ensures AddBody(b, keys, layout, true).1 <==> AllNatural(b, keys, layout)
    decreases |keys|
  {
    hide AddKey;
    if keys != [] {
      StrictBody(AddKey(b, keys[0], layout, true).0, keys[1..], layout);
    }
  }

  /** Keys replay exactly when all but the last extend one syllable naturally and the last one completes it. */
  lemma {:induction false} ReplayedExactly(body: Text, toneKey: Key, layout: Layout)
    ensures ReplayedReading(body, toneKey, layout).Some? <==>
      AllNatural(EMPTY, body, layout) &&
      var r := AddKey(AddBody(EMPTY, body, layout, true).0, toneKey, layout, true);
      r.1.Some? && r.1.value.completed && |r.0.segments| == 1
  {
    hide AddKey, AddBody;
    StrictBody(EMPTY, body, layout);
  }

  // ----- edges -----

  lemma {:induction false} BodyPush(b: Composition, keys: Text, key: Unit, layout: Layout, strict: bool)
    requires b.caret <= |b.segments|
    ensures var body := AddBody(b, keys, layout, strict);
      var step := AddKey(body.0, key, layout, true);
      AddBody(b, keys + [key], layout, strict) ==
        if !body.1 then body
        else if step.1.None? || (strict && !step.1.value.naturalExtension) then (step.0, false) else (step.0, true)
    decreases |keys|
  {
    hide AddKey;
    if keys == [] {
      assert [key][1..] == [] && keys + [key] == [key];
    } else {
      TailOfSum(keys, [key]);
      BodyPush(AddKey(b, keys[0], layout, true).0, keys[1..], key, layout, strict);
    }
  }

  /** Behind a completed syllable a space completes nothing. */
  lemma NothingToClose(b: Composition, key: Key, layout: Layout)
    requires b.caret == |b.segments| && b.caret > 0 && b.segments[b.caret - 1].readingFinalized
    ensures var r := AddKey(b, SPACE, layout, true); r.1.None? || !r.1.value.completed
  {
    assert ActiveSyllable(b) == NO_SYLLABLE;
  }

  lemma CompletedIsFinal(b: Composition, key: Key, layout: Layout)
    requires b.caret == |b.segments|
    ensures var r := AddKey(b, key, layout, true);
      r.1.Some? && r.1.value.completed ==>
        r.0.caret == |r.0.segments| && r.0.caret > 0 && r.0.segments[r.0.caret - 1].readingFinalized
  {
    hide Typed, StatusAfter, Natural;
  }

  /** Keys that complete a syllable do not make another one with a space behind them. */
  lemma OneWayToEnd(body: Text, toneKey: Unit, layout: Layout)
    requires ReplayedReading(body, toneKey, layout).Some?
    ensures ReplayedReading(body + [toneKey], SPACE, layout).None?
  {
    hide AddKey, AddBody;
    BodyPush(EMPTY, body, toneKey, layout, true);
    BodyAtEnd(EMPTY, body, layout, true);
    var b := AddBody(EMPTY, body, layout, true).0;
    CompletedIsFinal(b, toneKey, layout);
    NothingToClose(AddKey(b, toneKey, layout, true).0, SPACE, layout);
  }

  /** The edge of a syllable: it has exactly these keys, their reading and its candidates. */
  ghost predicate HasSyllable(edges: Edges, raw: Text, i: nat, end: nat, reading: Text, lookup: Text -> seq<Char>) {
    i < end <= |raw| && i < |edges| &&
    exists s :: s in edges[i] && s.kind == Bopomofo && s.begin == i && s.end == end && s.raw == raw[i..end] &&
      s.bodyKeys == raw[i..end - 1] && s.toneKey == raw[end - 1] && s.reading == reading && s.candidates == lookup(reading)
  }

  /** Two to six keys that replay to a reading with another tone than the space have an edge, whatever its tone, if the
      reading has candidates and the last key is no capital letter. */
  lemma EveryToneHasItsEdge(edges: Edges, raw: Text, layout: Layout, spaceTone: bool, lookup: Text -> seq<Char>, i: nat, length: nat)
    requires EdgesComplete(edges, raw, layout, spaceTone, lookup) && 2 <= length <= 6 && i + length <= |raw|
    requires !Capital(raw[i + length - 1])
    requires var reading := ReplayedReading(raw[i..i + length - 1], raw[i + length - 1], layout);
      reading.Some? && (reading.value != [] ==> ToneOf(reading.value) != SPACE) && lookup(reading.value) != []
    ensures HasSyllable(edges, raw, i, i + length, ReplayedReading(raw[i..i + length - 1], raw[i + length - 1], layout).value, lookup)
  {
    hide ReplayedReading, IsExplicitToneKey, IsSyllable;
    var body, toneKey, end := raw[i..i + length - 1], raw[i + length - 1], i + length;
    ReplayedTone(body, toneKey, layout);
    ExplicitExactly(body, toneKey, layout);
    assert ToneEdgeDue(raw, i, length, layout, lookup);
    assert HasEdge(edges, Bopomofo, i, end);
    var s :| s in edges[i] && s.end == end && s.kind == Bopomofo;
    assert IsEdge(s, raw, layout, spaceTone, lookup) && s.begin == i;
    EdgeIsSyllable(s, raw, layout, spaceTone, lookup);
  }

  /** An edge over keys that complete a syllable is of that syllable. */
  lemma EdgeIsSyllable(s: MixedSegment, raw: Text, layout: Layout, spaceTone: bool, lookup: Text -> seq<Char>)
    requires IsSyllable(s, raw, layout, spaceTone, lookup)
    requires ReplayedReading(raw[s.begin..s.end - 1], raw[s.end - 1], layout).Some?
    ensures s.bodyKeys == raw[s.begin..s.end - 1] && s.toneKey == raw[s.end - 1] && s.candidates == lookup(s.reading)
    ensures ReplayedReading(raw[s.begin..s.end - 1], raw[s.end - 1], layout) == Some(s.reading)
  {
    hide ReplayedReading, IsExplicitToneKey;
    var body, toneKey := raw[s.begin..s.end - 1], raw[s.end - 1];
    OneWayToEnd(body, toneKey, layout);
    if s.end == |raw| {
      assert body + [toneKey] == raw[s.begin..];
    }
  }

  /** Conversely the keys of a syllable's edge are two to six with another tone than the space, or all the rest of the
      input, closed by a space that is not part of it; the edge's reading and candidates are theirs. */
  lemma EdgesHaveTones(s: MixedSegment, raw: Text, layout: Layout, spaceTone: bool, lookup: Text -> seq<Char>)
    requires IsEdge(s, raw, layout, spaceTone, lookup) && s.kind == Bopomofo
    ensures s.reading != [] && s.candidates == lookup(s.reading) != [] && s.begin < s.end <= |raw|
    ensures if ToneOf(s.reading) != SPACE then
        2 <= s.end - s.begin <= 6 && !Capital(raw[s.end - 1]) &&
        ReplayedReading(raw[s.begin..s.end - 1], raw[s.end - 1], layout) == Some(s.reading) &&
        s.score == 40.0 + 6.0 * (s.end - s.begin - 1) as real
      else
        spaceTone && s.end == |raw| && ReplayedReading(raw[s.begin..], SPACE, layout) == Some(s.reading) &&
        s.score == 25.0 + 6.0 * (s.end - s.begin) as real
  {
    hide ReplayedReading;
    ReplayedTone(s.bodyKeys, s.toneKey, layout);
    if IsExplicitToneKey(s.toneKey, layout) {
      ExplicitIsNotCapital(s.toneKey, layout);
      ExplicitExactly(s.bodyKeys, s.toneKey, layout);
    }
    SpaceIsSpace(layout);
  }

  lemma ExplicitIsNotCapital(key: Key, layout: Layout)
    requires IsExplicitToneKey(key, layout)
    ensures !Capital(key)
  {
  }

  lemma SpaceIsSpace(layout: Layout)
    ensures KeyTone(SPACE, layout) == SPACE && !IsExplicitToneKey(SPACE, layout)
  {
  }

  ghost predicate HasSpaced(edges: Edges, raw: Text, i: nat, reading: Text, lookup: Text -> seq<Char>) {
    i < |edges| &&
    exists s :: s in edges[i] && s.kind == Bopomofo && s.begin == i && s.end == |raw| && s.reading == reading && s.candidates == lookup(reading)
  }

  /** When a space closes the input, all its keys from the start, or two or more from a later place, have an edge if
      they replay to a reading with candidates. */
  lemma EverySpaceHasItsEdge(edges: Edges, raw: Text, layout: Layout, lookup: Text -> seq<Char>, i: nat)
    requires EdgesComplete(edges, raw, layout, true, lookup) && i < |raw| && (i == 0 || i + 2 <= |raw|)
    requires var reading := ReplayedReading(raw[i..], SPACE, layout); reading.Some? && lookup(reading.value) != []
    ensures HasSpaced(edges, raw, i, ReplayedReading(raw[i..], SPACE, layout).value, lookup)
  {
    hide ReplayedReading, IsExplicitToneKey, IsSyllable;
    assert SpaceEdgeDue(raw, i, layout, lookup);
    assert HasEdge(edges, Bopomofo, i, |raw|);
    var s :| s in edges[i] && s.end == |raw| && s.kind == Bopomofo;
    assert IsEdge(s, raw, layout, true, lookup) && s.begin == i;
    SpacedEdge(s, raw, layout, true, lookup);
  }

  lemma SpacedEdge(s: MixedSegment, raw: Text, layout: Layout, spaceTone: bool, lookup: Text -> seq<Char>)
    requires IsSyllable(s, raw, layout, spaceTone, lookup) && s.end == |raw| && ReplayedReading(raw[s.begin..], SPACE, layout).Some?
    ensures Some(s.reading) == ReplayedReading(raw[s.begin..], SPACE, layout) && s.candidates == lookup(s.reading)
  {
    hide ReplayedReading, IsExplicitToneKey;
    assert raw[s.begin..s.end - 1] + [raw[s.end - 1]] == raw[s.begin..];
    if ReplayedReading(raw[s.begin..s.end - 1], raw[s.end - 1], layout).Some? {
      OneWayToEnd(raw[s.begin..s.end - 1], raw[s.end - 1], layout);
    }
  }

  // ----- scores -----

  /** The kinds and scores of ASCII tokens; a word that is known gains by its frequency. */
  lemma AsciiScores(decoder: MixedInputDecoder, kind: A.TokenKind, text: Text)
    ensures var gain := if decoder.frequency.Some? then 20.0 * (decoder.frequency.value)(text) else 0.0;
      decoder.Scored(kind, text) ==
        match kind
        case LatinWord => (Latin, 10.0 + gain)
        case Alphanumeric => (Latin, 8.0 + gain)
        case Number => (SegmentKind.Number, 8.0)
        case OperatorOrSymbol => (Symbol, 0.0)
        case _ => (Latin, 60.0)
  {
  }

  /** A path is worth its segments less 12 for every change of kind and 6 for every Latin segment but one; at most nine
      paths are listed. */
  lemma {:induction false} PathScores(segments: seq<MixedSegment>)
    ensures PathScore(segments) ==
      ScoreSum(segments) - 12.0 * Switches(segments) as real - 6.0 * (if Latins(segments) == 0 then 0 else Latins(segments) - 1) as real
    ensures TOP_K == 8
  {
  }

  /** The first path of every result is the input itself, in one piece, for nothing. */
  lemma RawIsFirst(result: MixedDecodeResult, raw: Text, layout: Layout, spaceTone: bool, lookup: Text -> seq<Char>)
    requires Decodes(result, raw, layout, spaceTone, lookup)
    ensures |result.paths| >= 1 && result.paths[0].rendered == raw && result.paths[0].score == 0.0
    ensures |result.paths[0].segments| == 1 && result.paths[0].segments[0].raw == raw && result.paths[0].segments[0].kind != Bopomofo
    ensures result.paths[0].segments[0].begin == 0 && result.paths[0].segments[0].end == |raw|
  {
    hide PathOf;
  }
}
