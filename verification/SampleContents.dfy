/** What training samples contain, and when there is one (engine/src/input/input_processor.cpp:216-297). */
module SampleContents {
  import opened Wrappers
  import opened Sequences
  import opened Utf
  import opened Messages
  import opened MixedPaths
  import Compositions
  import opened TrainingSamples

  /** The entry says what the segment shows: its own reading and character and whether a person or a phrase chose it,
      or a literal character alone. */
  predicate Tells(e: CommitEntry, s: Compositions.Segment)
    requires Showing(s)
  {
    if s.literal != 0 then e == CommitEntry([], s.literal, false, true)
    else e == CommitEntry(s.syllable.Text(), s.candidates[s.selectedIndex], s.manuallyChosen, false)
  }

  /** A literal, or a finished reading that shows a character. */
  predicate Showing(s: Compositions.Segment) {
    s.literal != 0 ||
    (s.readingFinalized && s.syllable.Complete() && s.selectedIndex < |s.candidates| && s.candidates[s.selectedIndex] != 0)
  }

  /** The characters typed behind the sample's text. */
  predicate TailFits(answer: Text, entries: nat, committed: Text) {
    && answer <= committed && |committed| <= 1024
    && var tail := DecodeUtf16(committed[|answer|..]);
       tail.Some? && 0 !in tail.value && (tail.value == [] || entries + |tail.value| <= 1024)
  }

  /** The composition makes a sample exactly when all of it is showing, something of it was composed, it is short enough,
      and the committed text continues it; the sample then tells each segment and each character of the rest. */
  lemma {:induction false} CompositionTold(segments: seq<Compositions.Segment>, committed: Text)
    requires forall i :: 0 <= i < |segments| ==> segments[i].Sound()
    ensures SampleOf(segments, committed).Some? <==>
      && 1 <= |segments| <= 1024 && (forall i :: 0 <= i < |segments| ==> Showing(segments[i]))
      && (exists i :: 0 <= i < |segments| && segments[i].literal == 0)
      && TailFits(Compositions.Rendered(segments), |segments|, committed)
    ensures SampleOf(segments, committed).Some? ==>
      var sample := SampleOf(segments, committed).value;
      var tail := DecodeUtf16(committed[|Compositions.Rendered(segments)|..]).value;
      && sample.answer == committed && |sample.entries| == |segments| + |tail|
      && (forall i :: 0 <= i < |segments| ==> Showing(segments[i]) && Tells(sample.entries[i], segments[i]))
      && (forall i :: 0 <= i < |tail| ==> sample.entries[|segments| + i] == CommitEntry([], tail[i], false, true))
  {
    hide Compositions.Rendered, DecodeUtf16, Tells, Showing, EntryOf, Sampled;
    forall i | 0 <= i < |segments|
      ensures Sampled(segments[i]) <==> Showing(segments[i])
      ensures Showing(segments[i]) ==> Tells(EntryOf(segments[i]), segments[i])
    {
      ShowingIsSampled(segments[i]);
    }
  }

  lemma ShowingIsSampled(s: Compositions.Segment)
    requires s.Sound()
    ensures Sampled(s) <==> Showing(s)
    ensures Showing(s) ==> Tells(EntryOf(s), s)
  {
    if s.literal == 0 && s.syllable.Complete() {
      TextIsNotEmpty(s);
    }
  }

  lemma TextIsNotEmpty(s: Compositions.Segment)
    requires s.syllable.Complete() && s.literal == 0
    ensures s.Reading() != []
  {
  }

  // ----- decoded paths -----

  /** A syllable with its first candidate, or the characters of the keys. */
  function EntriesFor(s: MixedSegment): seq<CommitEntry> {
    if s.kind == Bopomofo then
      if s.candidates == [] then [] else [CommitEntry(s.reading, s.candidates[0], false, false)]
    else match DecodeUtf16(s.raw) case None => [] case Some(cs) => LiteralEntries(cs)
  }

  function PathEntries(segments: seq<MixedSegment>): seq<CommitEntry> {
    if segments == [] then [] else EntriesFor(segments[0]) + PathEntries(segments[1..])
  }

  function PathAnswer(segments: seq<MixedSegment>): Text {
    if segments == [] then [] else RenderSegment(segments[0]) + PathAnswer(segments[1..])
  }

  /** A syllable that has a reading and shows a character, or keys that are characters. */
  predicate Tellable(s: MixedSegment) {
    if s.kind == Bopomofo then s.reading != [] && s.candidates != [] && s.candidates[0] != 0 && IsScalar(s.candidates[0])
    else DecodeUtf16(s.raw).Some? && 0 !in DecodeUtf16(s.raw).value
  }

  lemma GatheredOne(sample: Sample, s: MixedSegment)
    ensures Gathered(sample, s).Some? ==> Tellable(s)
    ensures Gathered(sample, s).Some? ==>
      Gathered(sample, s).value == Sample(sample.answer + RenderSegment(s), sample.entries + EntriesFor(s))
    ensures Tellable(s) && |sample.entries| + |EntriesFor(s)| <= 1024 ==> Gathered(sample, s).Some?
  {
    hide DecodeUtf16, Utf16;
    if s.kind != Bopomofo {
      Utf16OfDecode(s.raw);
    }
  }

  lemma {:induction false} GatheredPath(sample: Sample, segments: seq<MixedSegment>)
    ensures GatheredAll(sample, segments).Some? ==> forall i :: 0 <= i < |segments| ==> Tellable(segments[i])
    ensures GatheredAll(sample, segments).Some? ==>
      GatheredAll(sample, segments).value == Sample(sample.answer + PathAnswer(segments), sample.entries + PathEntries(segments))
    ensures (forall i :: 0 <= i < |segments| ==> Tellable(segments[i])) && |sample.entries| + |PathEntries(segments)| <= 1024 ==>
      GatheredAll(sample, segments).Some?
    decreases |segments|
  {
    hide Gathered, EntriesFor, Tellable, RenderSegment;
    if segments == [] {
      NothingAdded(sample.answer);
      NothingAdded(sample.entries);
    } else {
      var s := segments[0];
      GatheredOne(sample, s);
      var next := Sample(sample.answer + RenderSegment(s), sample.entries + EntriesFor(s));
      GatheredPath(next, segments[1..]);
      Associative(sample.answer, RenderSegment(s), PathAnswer(segments[1..]));
      Associative(sample.entries, EntriesFor(s), PathEntries(segments[1..]));
      assert forall i :: 1 <= i < |segments| ==> segments[i] == segments[1..][i - 1];
    }
  }

  /** At most 1024 segments that can be told, with as few entries, and a syllable among them. */
  predicate AllTellable(segments: seq<MixedSegment>) {
    && 1 <= |segments| <= 1024 && |PathEntries(segments)| <= 1024
    && (exists i :: 0 <= i < |segments| && segments[i].kind == Bopomofo)
    && forall i :: 0 <= i < |segments| ==> Tellable(segments[i])
  }

  /** A path's sample tells its syllables with their first candidates, nobody's choice, and every other character of the
      committed text as a literal; there is one whenever a syllable is among its segments, all of them can be told and the
      committed text continues what it shows within the limits. */
  lemma {:induction false} PathTold(segments: seq<MixedSegment>, committed: Text)
    ensures PathSample(segments, committed).Some? ==>
      && PathAnswer(segments) <= committed && DecodeUtf16(committed[|PathAnswer(segments)|..]).Some?
      && PathSample(segments, committed).value ==
           Sample(committed, PathEntries(segments) + LiteralEntries(DecodeUtf16(committed[|PathAnswer(segments)|..]).value))
    ensures AllTellable(segments) && TailFits(PathAnswer(segments), |PathEntries(segments)|, committed) ==> PathSample(segments, committed).Some?
  {
    hide GatheredAll, PathAnswer, PathEntries, Tellable, DecodeUtf16;
    GatheredPath(Sample([], []), segments);
    NothingAdded(PathAnswer(segments));
    NothingAdded(PathEntries(segments));
  }
}
