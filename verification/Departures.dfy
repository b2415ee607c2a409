/** Inputs on which the program does not do what it documents. The theorems named at each lemma say exactly for
    which inputs that is so. */
module Departures {
  import opened Wrappers
  import opened Sequences
  import opened Utf
  import opened Messages
  import Store = PhraseStore
  import PhraseFile
  import Overrides = PhraseOverrides
  import Pinning = PhrasePinning
  import Settling = PhraseSettling
  import Compositions
  import Syllables
  import Keymap
  import MixedPaths
  import MixedDecoder
  import MixedApply
  import CommitStaging
  import TrainingSamples

  type Text = seq<Unit>

  // ----- phrase overrides -----

  lemma OneCharacter(a: Scalar)
    requires a <= 0xFFFF
    ensures Utf16ToUtf8([a as int]) == Some(EncodeUtf8(a))
  {
    var units: Text := [a as int];
    assert Utf16([a]) == EncodeUtf16(a) + Utf16([a][1..]) == units;
    assert Utf8([a]) == EncodeUtf8(a) + Utf8([a][1..]);
    NothingAdded(EncodeUtf8(a));
    DecodeOfUtf16([a]);
  }

  lemma TwoCharacters(a: Scalar, b: Scalar)
    requires a <= 0xFFFF && b <= 0xFFFF
    ensures Utf16ToUtf8([a as int, b as int]) == Some(EncodeUtf8(a) + EncodeUtf8(b))
    ensures DecodeUtf8(EncodeUtf8(a) + EncodeUtf8(b)) == Some([a, b])
  {
    var units: Text := [a as int, b as int];
    OneCharacter(b);
    var cs: seq<Scalar> := [a, b];
    assert cs[1..] == [b] && [b][1..] == [];
    assert Utf16([b]) == EncodeUtf16(b) + [] == EncodeUtf16(b);
    assert Utf16(cs) == EncodeUtf16(a) + EncodeUtf16(b) == units;
    assert Utf8([b]) == EncodeUtf8(b) + [] == EncodeUtf8(b);
    assert Utf8(cs) == EncodeUtf8(a) + EncodeUtf8(b);
    DecodeOfUtf16(cs);
    DecodeOfUtf8(cs);
  }

  lemma KeyOfTwo(first: Text, second: Text, a: seq<Byte>, b: seq<Byte>)
    requires Store.KeyPart(first) == Some(a) && Store.KeyPart(second) == Some(b)
    ensures Store.ReadingKey([first, second]) == Some(a + [0x2D] + b)
  {
    hide Store.KeyPart;
    var readings: seq<Text> := [first, second];
    var one: seq<Text> := [second];
    assert readings[1..] == one && one[1..] == [];
    assert [b] + [] == [b] && [a] + [b] == [a, b];
    assert Store.KeyParts(one) == Some([b]);
    assert Store.KeyParts(readings) == Some([a, b]);
    var parts: seq<seq<Byte>> := [a, b];
    assert parts[1..] == [b];
    assert Store.Joined(parts) == a + [0x2D] + Store.Joined(parts[1..]);
  }

  /** The readings ㄅ ㄅ. */
  const READINGS: seq<Text> := [[0x3105], [0x3105]]
  const READINGS_KEY: seq<Byte> := [0xE3, 0x84, 0x85, 0x2D, 0xE3, 0x84, 0x85]

  lemma KeyOfReadings()
    ensures Store.ReadingKey(READINGS) == Some(READINGS_KEY)
  {
    var part: seq<Byte> := [0xE3, 0x84, 0x85];
    KeyPartOf(0x3105, part);
    KeyOfTwo([0x3105], [0x3105], part, part);
    assert part + [0x2D] + part == READINGS_KEY;
  }

  lemma KeyPartOf(c: Scalar, utf8: seq<Byte>)
    requires c <= 0xFFFF && c != 0x20 && EncodeUtf8(c) == utf8 && forall i :: 0 <= i < |utf8| ==> utf8[i] >= 0x80
    ensures Store.KeyPart([c as int]) == Some(utf8)
  {
    OneCharacter(c);
    var reading: Text := [c as int];
    assert Store.TrimLeft(reading) == reading && Store.TrimRight(reading) == reading;
  }

  /** A phrase of two characters is valid for two readings when neither encodes a blank. */
  lemma PhraseIsValid(a: Scalar, b: Scalar)
    requires a <= 0xFFFF && b <= 0xFFFF
    requires forall i :: 0 <= i < |EncodeUtf8(a) + EncodeUtf8(b)| ==> !Store.IsBlank((EncodeUtf8(a) + EncodeUtf8(b))[i])
    ensures Store.ValidEntry([a as int, b as int], 2)
  {
    TwoCharacters(a, b);
  }

  /** The store takes a phrase that begins with the comment sign, and its line is not loaded back
      (PhraseFile.LoadUndoesPrint, PhraseOverrides.FileRoundTrip). */
  lemma CommentPhraseIsLost() returns (phrase: Text)
    ensures phrase == [0x23, 0x4E00]
    ensures Store.ReadingKey(READINGS) == Some(READINGS_KEY) && Store.ValidEntry(phrase, |READINGS|)
    ensures Store.FormatLine(phrase, READINGS_KEY).Some?
    ensures PhraseFile.LoadLine(Store.FormatLine(phrase, READINGS_KEY).value) != Some((READINGS_KEY, phrase))
  {
    hide Store.ReadingKey, Store.ValidEntry, PhraseFile.LoadLine, Store.FormatLine;
    phrase := [0x23, 0x4E00];
    KeyOfReadings();
    PhraseIsValid(0x23, 0x4E00);
    PhraseFile.LoadUndoesPrint(phrase, READINGS, READINGS_KEY);
  }

  /** The store takes a reading that holds an ideographic space, and its line is not loaded back
      (PhraseFile.LoadUndoesPrint, PhraseOverrides.FileRoundTrip). */
  lemma WideSpaceIsLost() returns (phrase: Text, readings: seq<Text>, key: seq<Byte>)
    ensures phrase == [0x4E00, 0x4E00] && readings == [[0x3105, 0x3000], [0x3105]]
    ensures Store.ReadingKey(readings) == Some(key) && Store.ValidEntry(phrase, |readings|)
    ensures Store.FormatLine(phrase, key).Some?
    ensures PhraseFile.LoadLine(Store.FormatLine(phrase, key).value) != Some((key, phrase))
  {
    hide Store.ReadingKey, Store.ValidEntry, PhraseFile.LoadLine, Store.FormatLine;
    phrase, readings := [0x4E00, 0x4E00], [[0x3105, 0x3000], [0x3105]];
    key := WideKey();
    PhraseIsValid(0x4E00, 0x4E00);
    assert PhraseFile.HasSpace(readings[0]);
    PhraseFile.LoadUndoesPrint(phrase, readings, key);
  }

  lemma WideKey() returns (key: seq<Byte>)
    ensures Store.ReadingKey([[0x3105, 0x3000], [0x3105]]) == Some(key)
  {
    var wide := PairPart(0x3105, 0x3000);
    KeyPartOf(0x3105, [0xE3, 0x84, 0x85]);
    hide Store.KeyPart, Store.ReadingKey;
    KeyOfTwo([0x3105, 0x3000], [0x3105], wide, [0xE3, 0x84, 0x85]);
    key := Store.ReadingKey([[0x3105, 0x3000], [0x3105]]).value;
  }

  lemma PairPart(a: Scalar, b: Scalar) returns (utf8: seq<Byte>)
    requires 0x80 <= a <= 0xFFFF && 0x80 <= b <= 0xFFFF
    requires forall i :: 0 <= i < |EncodeUtf8(a) + EncodeUtf8(b)| ==> (EncodeUtf8(a) + EncodeUtf8(b))[i] >= 0x80
    ensures Store.KeyPart([a as int, b as int]) == Some(utf8)
  {
    hide EncodeUtf8;
    var reading: Text := [a as int, b as int];
    TwoCharacters(a, b);
    assert Store.TrimLeft(reading) == reading && Store.TrimRight(reading) == reading;
    utf8 := EncodeUtf8(a) + EncodeUtf8(b);
  }

  /** ㄅ with the fourth tone, finished, showing 一. */
  const TYPED := Compositions.Segment(Syllables.Syllable(0x3105, 0, 0, Syllables.GRAVE), 0, [0x4E00], 0, false, false, true, [])
  const TYPED_READING: Text := [0x3105, 0x2CB]

  lemma TypedReading()
    ensures TYPED.Reading() == TYPED_READING && TYPED.Sound() && TYPED.VisibleCandidate() && Pinning.Usable(TYPED)
  {
    assert TYPED.Reading() == Syllables.Bmp(0x3105) + [] + [] + Syllables.Bmp(0x2CB);
  }

  lemma TypedKey() returns (key: seq<Byte>)
    ensures Store.ReadingKey([TYPED_READING, TYPED_READING]) == Some(key)
  {
    var part := PairPart(0x3105, 0x2CB);
    hide Store.KeyPart, Store.ReadingKey;
    KeyOfTwo(TYPED_READING, TYPED_READING, part, part);
    key := Store.ReadingKey([TYPED_READING, TYPED_READING]).value;
  }

  /** A stored phrase may hold the code point 0; the range pinned to it does not show it (PhrasePinning.RangeShowsPhrase). */
  lemma NullPhraseIsNotShown() returns (phrases: Overrides.Phrases, before: seq<Compositions.Segment>, after: seq<Compositions.Segment>)
    ensures Overrides.WellFormed(phrases) && Pinning.StoredOver(phrases, before, 0, 2)
    ensures Pinning.RangePinned(phrases, before, after, Pinning.Range(0, 2))
    ensures Overrides.Lookup(phrases, Pinning.ReadingsOf(before, 0, 2)) == Some([0, 0x4E00])
    ensures Compositions.Rendered(after[0..2]) != [0, 0x4E00]
  {
    hide Store.ReadingKey, Store.ValidEntry, Compositions.Rendered, Compositions.PinnedTo, Pinning.PhraseOver, Pinning.Usable, Compositions.Segment.Reading;
    var key := TypedKey();
    var phrase: Text := [0, 0x4E00];
    phrases, before := map[key := phrase], [TYPED, TYPED];
    TypedReading();
    PhraseIsValid(0, 0x4E00);
    assert Overrides.Stored(key, phrase);
    assert Pinning.ReadingsOf(before, 0, 2) == [TYPED_READING, TYPED_READING];
    Pinning.PhraseOverFills(phrases, before, 0, 2);
    var over := Pinning.PhraseOver(phrases, before, 0, 2);
    after := [Compositions.PinnedTo(TYPED, over[0]), Compositions.PinnedTo(TYPED, over[1])];
    Pinning.RangeShowsPhrase(phrases, before, after, Pinning.Range(0, 2));
  }

  /** TYPED with its character pinned by a phrase. */
  const PINNED := TYPED.(manuallyChosen := true, phraseOverrideChosen := true)

  /** Three usable segments with the reading of TYPED, of which two in a row are a stored phrase. */
  ghost predicate Three(phrases: Overrides.Phrases, segments: seq<Compositions.Segment>) {
    && |segments| == 3 && (forall i :: 0 <= i < 3 ==> Pinning.Usable(segments[i]) && segments[i].Reading() == TYPED_READING)
    && var key := Store.ReadingKey([TYPED_READING, TYPED_READING]);
       key.Some? && phrases == map[key.value := [0x4E00, 0x4E00]]
  }

  lemma ThreeLookups(phrases: Overrides.Phrases, segments: seq<Compositions.Segment>)
    requires Three(phrases, segments)
    ensures Overrides.Lookup(phrases, Pinning.ReadingsOf(segments, 0, 2)) == Some([0x4E00, 0x4E00])
    ensures Overrides.Lookup(phrases, Pinning.ReadingsOf(segments, 1, 2)) == Some([0x4E00, 0x4E00])
    ensures Overrides.Lookup(phrases, Pinning.ReadingsOf(segments, 0, 3)).None?
  {
    hide Store.ReadingKey, Pinning.Usable, Compositions.Segment.Reading;
    var two: seq<Text> := [TYPED_READING, TYPED_READING];
    assert Pinning.ReadingsOf(segments, 0, 2) == two && Pinning.ReadingsOf(segments, 1, 2) == two;
    if Store.ReadingKey(Pinning.ReadingsOf(segments, 0, 3)) == Store.ReadingKey(two) {
      Store.KeyIsInjective(Pinning.ReadingsOf(segments, 0, 3), two);
    }
  }

  lemma {:induction false} ThreeRanges(phrases: Overrides.Phrases, segments: seq<Compositions.Segment>)
    requires Three(phrases, segments)
    ensures Pinning.Ranges(phrases, segments, 0) == [Pinning.Range(0, 2)]
  {
    hide Pinning.MatchAt, Pinning.Ranges, Pinning.Usable, Overrides.Lookup, Pinning.ReadingsOf;
    ThreeLookups(phrases, segments);
    assert Pinning.StoredOver(phrases, segments, 0, 2);
    Pinning.MatchIsLongest(phrases, segments, 0);
    Pinning.MatchIsLongest(phrases, segments, 2);
    Pinning.RangesStep(phrases, segments, 0);
    Pinning.RangesStep(phrases, segments, 2);
    Pinning.RangesStep(phrases, segments, 3);
  }

  lemma ThreePhrase(phrases: Overrides.Phrases, segments: seq<Compositions.Segment>)
    requires Three(phrases, segments)
    ensures Pinning.PhraseOver(phrases, segments, 0, 2) == [0x4E00, 0x4E00]
  {
    hide Store.ReadingKey, Pinning.Usable, Overrides.Lookup, Pinning.ReadingsOf, Utf16ToUtf8, DecodeUtf8, EncodeUtf8;
    ThreeLookups(phrases, segments);
    TwoCharacters(0x4E00, 0x4E00);
  }

  /** A pass over segments of which the first two are matched. */
  lemma ThreePass(phrases: Overrides.Phrases, before: seq<Compositions.Segment>, after: seq<Compositions.Segment>)
    requires Three(phrases, before) && |after| == 3
    requires after[0] == Compositions.PinnedTo(before[0], 0x4E00) && after[1] == Compositions.PinnedTo(before[1], 0x4E00)
    requires after[2] == Pinning.Checked(phrases, before, 2)
    ensures Pinning.Overridden(phrases, before, after)
  {
    hide Three, Pinning.Ranges, Pinning.LeftmostLongest, Pinning.PhraseOver, Pinning.Checked, Compositions.PinnedTo;
    ThreeLength(phrases, before);
    ThreeRanges(phrases, before);
    ThreePhrase(phrases, before);
    Pinning.RangesAreLeftmostLongest(phrases, before, 0);
    var ranges := Pinning.Ranges(phrases, before, 0);
    assert Pinning.RangePinned(phrases, before, after, ranges[0]);
    assert Pinning.Covers(ranges[0], 0) && Pinning.Covers(ranges[0], 1);
  }

  lemma ThreeLength(phrases: Overrides.Phrases, segments: seq<Compositions.Segment>)
    requires Three(phrases, segments)
    ensures |segments| == 3
  {
  }

  lemma ThreeStored() returns (phrases: Overrides.Phrases)
    ensures Overrides.WellFormed(phrases)
    ensures Three(phrases, [TYPED, PINNED, PINNED]) && Three(phrases, [PINNED, PINNED, PINNED])
  {
    hide Store.ReadingKey, Store.ValidEntry, Pinning.Usable, Compositions.Segment.Reading;
    var key := TypedKey();
    phrases := map[key := [0x4E00, 0x4E00]];
    PhraseIsValid(0x4E00, 0x4E00);
    assert Overrides.Stored(key, [0x4E00, 0x4E00]);
    TypedReading();
    PinnedFacts();
  }

  lemma PinnedFacts()
    ensures PINNED.Reading() == TYPED_READING && Pinning.Usable(PINNED) && PINNED.phraseOverrideChosen && !TYPED.phraseOverrideChosen
    ensures Compositions.PinnedTo(TYPED, 0x4E00) == PINNED && Compositions.PinnedTo(PINNED, 0x4E00) == PINNED
    ensures Compositions.Unpinned(PINNED) == TYPED
  {
    TypedReading();
  }

  /** The pinned run of two still reads as the phrase, so its second pin stays. */
  lemma RunOfTwoHolds(phrases: Overrides.Phrases, segments: seq<Compositions.Segment>)
    requires Three(phrases, segments) && segments == [TYPED, PINNED, PINNED]
    ensures Pinning.Checked(phrases, segments, 2) == PINNED
  {
    hide Overrides.Lookup, Pinning.ReadingsOf, Pinning.Usable;
    PinnedFacts();
    ThreeLookups(phrases, segments);
    Pinning.RunIsUnique(phrases, segments, 1, 3, 2);
  }

  /** The pinned run of three reads as no phrase, so its last pin goes. */
  lemma RunOfThreeGoes(phrases: Overrides.Phrases, segments: seq<Compositions.Segment>)
    requires Three(phrases, segments) && segments == [PINNED, PINNED, PINNED]
    ensures Pinning.Checked(phrases, segments, 2) == TYPED && !Settling.NoLeftover(phrases, segments)
  {
    hide Overrides.Lookup, Pinning.ReadingsOf, Pinning.Usable, Pinning.Ranges;
    PinnedFacts();
    ThreeLookups(phrases, segments);
    Pinning.RunIsUnique(phrases, segments, 0, 3, 2);
    ThreeRanges(phrases, segments);
    assert Pinning.Uncovered([Pinning.Range(0, 2)], 2);
  }

  /** A new match overlaps an old pinned run in part: the pass leaves a pin that the next one takes away
      (PhraseSettling.SecondPassIdle, PhraseSettling.TwoPassesSettle). */
  lemma LeftoverPinGoesLater() returns (phrases: Overrides.Phrases)
    ensures Overrides.WellFormed(phrases)
    ensures Pinning.Overridden(phrases, [TYPED, PINNED, PINNED], [PINNED, PINNED, PINNED])
    ensures !Settling.NoLeftover(phrases, [PINNED, PINNED, PINNED])
    ensures Pinning.Overridden(phrases, [PINNED, PINNED, PINNED], [PINNED, PINNED, TYPED])
  {
    hide *;
    phrases := ThreeStored();
    TypedReading();
    PinnedFacts();
    var before, after := [TYPED, PINNED, PINNED], [PINNED, PINNED, PINNED];
    RunOfTwoHolds(phrases, before);
    RunOfThreeGoes(phrases, after);
    ThreePass(phrases, before, after);
    ThreePass(phrases, after, [PINNED, PINNED, TYPED]);
  }

  // ----- previews -----

  /** The keys of ㄅ with the fourth tone in the standard layout. */
  const KEYS: Text := [0x31, 0x34]

  const INITIAL := Syllables.Syllable(0x3105, 0, 0, 0)

  lemma KeySymbols()
    ensures Keymap.LookupKey(0x31, true).value == 0x3105 && Keymap.LookupKey(0x34, true).value == Syllables.GRAVE
    ensures Keymap.LookupKey(0x31, true).Some? && Keymap.LookupKey(0x34, true).Some?
  {
  }

  /** The first key begins a syllable, the second completes it. */
  lemma KeyEffects()
    ensures Keymap.StatusAfter(Syllables.NO_SYLLABLE, Keymap.Standard, 0x31, true) == Keymap.Composing
    ensures Keymap.Typed(Syllables.NO_SYLLABLE, Keymap.Standard, 0x31, true) == INITIAL
    ensures Keymap.StatusAfter(INITIAL, Keymap.Standard, 0x34, true) == Keymap.Completed
    ensures Keymap.Typed(INITIAL, Keymap.Standard, 0x34, true) == TYPED.syllable
    ensures Compositions.Natural(Syllables.NO_SYLLABLE, Keymap.Standard, 0x31, true)
  {
    hide Keymap.LookupKey, Keymap.StandardSymbol;
    KeySymbols();
  }

  lemma FirstKey() returns (one: Compositions.Composition)
    ensures one.segments == [Compositions.NewReading(INITIAL, false, [])] && one.caret == 1
    ensures Compositions.AddBody(Compositions.EMPTY, [0x31], Keymap.Standard, true) == (one, true)
  {
    hide Keymap.StatusAfter, Keymap.Typed, Compositions.Natural;
    KeyEffects();
    var body: Text := [0x31];
    one := Compositions.AddKey(Compositions.EMPTY, 0x31, Keymap.Standard, true).0;
    assert body[1..] == [];
  }

  lemma SecondKey(one: Compositions.Composition)
    requires one.segments == [Compositions.NewReading(INITIAL, false, [])] && one.caret == 1
    ensures var two := Compositions.AddKey(one, 0x34, Keymap.Standard, true);
      two.1.Some? && two.1.value.completed && |two.0.segments| == 1 && two.0.segments[0].Reading() == TYPED_READING
  {
    hide Keymap.StatusAfter, Keymap.Typed, Compositions.Natural;
    KeyEffects();
    TypedReading();
  }

  lemma KeysReplay()
    ensures MixedDecoder.ReplayedReading([0x31], 0x34, Keymap.Standard) == Some(TYPED_READING)
  {
    hide Compositions.AddBody, Compositions.AddKey, Compositions.Segment.Reading;
    var one := FirstKey();
    SecondKey(one);
  }

  /** When the table gives the code point 0 as a candidate, the preview shows it and the composition drops it
      (MixedApply.PreviewIsResult). */
  lemma NullCandidateIsDropped() returns (path: MixedPaths.MixedPath, lookup: Text -> seq<nat>)
    ensures MixedDecoder.PathOf(path, KEYS, Keymap.Standard, true, lookup) && path.rendered == [0]
    ensures var r := MixedApply.ApplyFirst(Compositions.EMPTY, path.segments, |path.segments|, 0, Keymap.Standard, true);
      r.1 && Compositions.Rendered(r.0.segments) != Compositions.Rendered(Compositions.EMPTY.segments) + path.rendered
  {
    hide MixedDecoder.ReplayedReading, MixedApply.ApplyFirst, Compositions.Rendered;
    lookup := _ => [0];
    KeysReplay();
    var s := MixedPaths.MixedSegment(MixedPaths.Bopomofo, 0, 2, KEYS, [0x31], 0x34, TYPED_READING, [0], 46.0);
    path := MixedPaths.MixedPath([s], MixedPaths.Rendering([s]), MixedPaths.PathScore([s]));
    assert KEYS[0..1] == [0x31] && KEYS[0..2] == KEYS;
    assert MixedDecoder.IsEdge(s, KEYS, Keymap.Standard, true, lookup);
    assert [s][..0] == [];
    assert MixedPaths.Tiles([], 0, 0) && MixedPaths.Rendering([]) == [];
    assert path.rendered == [] + [0];
    MixedApply.PreviewIsResult(Compositions.EMPTY, path, 0, KEYS, Keymap.Standard, true, lookup, true);
    assert !MixedApply.NulFree(path.segments[0], 0);
  }

  // ----- training samples -----

  /** A literal half of a surrogate pair is sound, and a sample of a composition with one is refused
      (TrainingSamples.CompositionSampleAcceptable). `add_literal` takes any character but 0; the input processor calls
      it with ASCII keys, table punctuation and menu symbols only, so no key delivers such a literal. */
  lemma LoneHalfIsRefused(b: Compositions.Composition, event: Id, source: Id, context: Text)
      returns (segments: seq<Compositions.Segment>)
    requires b.Valid() && b.segments == [TYPED] && b.caret == 1
    requires !IsZero(event) && !IsZero(source) && |context| <= 4096 && ValidUtf16(context)
    ensures segments == Compositions.AddLiteral(b, 0xD800).0.segments && forall i :: 0 <= i < |segments| ==> segments[i].Sound()
    ensures var committed := Compositions.Rendered(segments);
      var sample := TrainingSamples.SampleOf(segments, committed);
      sample.Some? && !CommitStaging.Acceptable(Commit(event, source, context, sample.value.answer, sample.value.entries))
  {
    hide CommitStaging.Acceptable, IsZero, DecodeUtf16;
    TypedReading();
    var half := Compositions.NewLiteral(0xD800);
    segments := [TYPED, half];
    assert Compositions.AddLiteral(b, 0xD800).0.segments == segments;
    var committed := Compositions.Rendered(segments);
    WholeIsSampled(segments, committed);
    TrainingSamples.CompositionSampleAcceptable(segments, committed, event, source, context);
    assert !IsScalar(segments[1].SelectedCandidate());
  }

  lemma NoTail(sample: TrainingSamples.Sample)
    requires |sample.answer| <= TrainingSamples.MAX_ANSWER
    ensures TrainingSamples.WithTail(sample, sample.answer).Some?
  {
    assert sample.answer[|sample.answer|..] == [];
  }

  lemma {:induction false} WholeIsSampled(segments: seq<Compositions.Segment>, committed: Text)
    requires |segments| == 2 && segments[0] == TYPED && segments[1] == Compositions.NewLiteral(0xD800)
    requires committed == Compositions.Rendered(segments)
    ensures TrainingSamples.SampleOf(segments, committed).Some?
  {
    TypedReading();
    assert TrainingSamples.Sampled(segments[0]) && TrainingSamples.Sampled(segments[1]) && segments[0].literal == 0;
    assert segments[1..][1..] == [];
    assert Compositions.Rendered(segments[1..]) == Compositions.Units(0xD800) + [];
    var whole := TrainingSamples.Sample(committed, TrainingSamples.EntriesOf(segments));
    NoTail(whole);
    hide Compositions.Rendered, TrainingSamples.WithTail;
    assert TrainingSamples.SampleOf(segments, committed) == TrainingSamples.WithTail(whole, committed);
  }
}
