/** The samples of committed text that the client builds for training (engine/src/input/input_processor.cpp), and
    why the service accepts them (ime-unix-service/src/training/commit_store.cpp). */
module TrainingSamples {
  import opened Wrappers
  import opened Sequences
  import opened Utf
  import opened Messages
  import opened CommitStaging
  import opened MixedPaths
  import Compositions
  import CompositionBuffers
  import Syllables
  import MixedDecoder
  import CompositionRuns
  import Replay
  import Keymap

  type Segment = Compositions.Segment

  datatype Sample = Sample(answer: Text, entries: seq<CommitEntry>)

  const MAX_ENTRIES := 1024
  const MAX_ANSWER := 1024

  function LiteralEntry(character: nat): CommitEntry {
    CommitEntry([], character, false, true)
  }

  function LiteralEntries(scalars: seq<Scalar>): (r: seq<CommitEntry>)
    ensures |r| == |scalars| && forall i :: 0 <= i < |r| ==> r[i] == LiteralEntry(scalars[i])
  {
    seq(|scalars|, i requires 0 <= i < |scalars| => LiteralEntry(scalars[i]))
  }

  // ----- the literal tail -----

  /** What the composition does not account for was typed literally; text that is not UTF-16 makes no sample. */
  function WithTail(sample: Sample, committed: Text): Option<Sample> {
    if !(sample.answer <= committed) then None
    else
      match DecodeUtf16(committed[|sample.answer|..])
      case None => None
      case Some(tail) =>
        if 0 in tail || (tail != [] && |sample.entries| + |tail| > MAX_ENTRIES) || |committed| > MAX_ANSWER then None
        else Some(Sample(committed, sample.entries + LiteralEntries(tail)))
  }

  /** Appends the code points as literal entries, unless one is zero or there are too many. */
  method AppendLiterals(entries: seq<CommitEntry>, scalars: seq<Scalar>) returns (r: Option<seq<CommitEntry>>)
    ensures r == if 0 in scalars || (scalars != [] && |entries| + |scalars| > MAX_ENTRIES) then None
                 else Some(entries + LiteralEntries(scalars))
  {
    var all := entries;
    var i := 0;
    while i < |scalars|
      invariant 0 <= i <= |scalars| && 0 !in scalars[..i] && (i > 0 ==> |entries| + i <= MAX_ENTRIES)
      invariant all == entries + LiteralEntries(scalars[..i])
    {
      if scalars[i] == 0 || |all| >= MAX_ENTRIES {
        return None;
      }
      PushOne(scalars, i);
      Associative(entries, LiteralEntries(scalars[..i]), [LiteralEntry(scalars[i])]);
      assert LiteralEntries(scalars[..i + 1]) == LiteralEntries(scalars[..i]) + [LiteralEntry(scalars[i])];
      all := all + [LiteralEntry(scalars[i])];
      i := i + 1;
    }
    Whole(scalars);
    return Some(all);
  }

  method AppendLiteralTail(sample: Sample, committed: Text) returns (r: Option<Sample>)
    ensures r == WithTail(sample, committed)
  {
    hide DecodeUtf16;
    if !(sample.answer <= committed) {
      return None;
    }
    var rest := committed[|sample.answer|..];
    var tail := Decoded(rest);
    if tail.None? {
      return None;
    }
    var entries := AppendLiterals(sample.entries, tail.value);
    if entries.None? {
      return None;
    }
    var answer := sample.answer + rest;
    assert sample.answer == committed[..|sample.answer|];
    CutAt(committed, |sample.answer|);
    return if |answer| <= MAX_ANSWER then Some(Sample(answer, entries.value)) else None;
  }

  /** utf8_to_u32 after u16_to_utf8. */
  method Decoded(text: Text) returns (scalars: Option<seq<Scalar>>)
    ensures scalars == DecodeUtf16(text)
  {
    var utf8 := U16ToUtf8(text);
    if utf8.None? {
      return None;
    }
    DecodeOfUtf8(DecodeUtf16(text).value);
    scalars := Utf8ToU32(utf8.value);
  }

  // ----- a sample from the composition -----

  /** One position of the composition; the checks before it make the character visible and not zero. */
  function EntryOf(s: Segment): CommitEntry {
    if s.literal != 0 then LiteralEntry(s.literal)
    else CommitEntry(s.Reading(), s.SelectedCandidate(), s.manuallyChosen, false)
  }

  predicate Sampled(s: Segment) {
    s.VisibleCandidate() && s.SelectedCandidate() != 0 && (s.literal == 0 ==> s.Reading() != [])
  }

  function EntriesOf(segments: seq<Segment>): (r: seq<CommitEntry>)
    ensures |r| == |segments| && forall i :: 0 <= i < |r| ==> r[i] == EntryOf(segments[i])
  {
    seq(|segments|, i requires 0 <= i < |segments| => EntryOf(segments[i]))
  }

  function SampleOf(segments: seq<Segment>, committed: Text): Option<Sample> {
    if segments == [] || |segments| > MAX_ENTRIES || (exists i :: 0 <= i < |segments| && !Sampled(segments[i])) ||
       (forall i :: 0 <= i < |segments| ==> segments[i].literal != 0) then None
    else WithTail(Sample(Compositions.Rendered(segments), EntriesOf(segments)), committed)
  }

  method TrainingSample(buffer: CompositionBuffers.CompositionBuffer, committed: Text) returns (r: Option<Sample>)
    ensures r == SampleOf(buffer.segments, committed)
  {
    hide Compositions.Rendered, WithTail, Sampled, EntryOf;
    var segments := buffer.segments;
    if segments == [] || |segments| > MAX_ENTRIES {
      return None;
    }
    var answer: Text := [];
    var entries: seq<CommitEntry> := [];
    var trainable := false;
    var i := 0;
    NothingRendered();
    while i < |segments|
      invariant 0 <= i <= |segments| && answer == Compositions.Rendered(segments[..i])
      invariant entries == EntriesOf(segments[..i])
      invariant forall k :: 0 <= k < i ==> Sampled(segments[k])
      invariant trainable <==> exists k :: 0 <= k < i && segments[k].literal == 0
    {
      var segment := segments[i];
      var fits := CanSample(segment);
      if !fits {
        return None;
      }
      PushOne(segments, i);
      CompositionBuffers.RenderedPush(segments[..i], segment);
      trainable := trainable || segment.literal == 0;
      entries := entries + [EntryOf(segment)];
      answer := answer + segment.RenderedText();
      i := i + 1;
    }
    Whole(segments);
    if !trainable {
      return None;
    }
    r := AppendLiteralTail(Sample(answer, entries), committed);
  }

  method CanSample(segment: Segment) returns (ok: bool)
    ensures ok == Sampled(segment)
  {
    if !segment.VisibleCandidate() || segment.SelectedCandidate() == 0 {
      return false;
    }
    return !(segment.literal == 0 && segment.Reading() == []);
  }

  lemma NothingRendered()
    ensures Compositions.Rendered([]) == []
  {
  }

  // ----- a sample from a decoded path -----

  /** What one segment of a path adds; None where the source gives up or cannot convert. */
  function Gathered(sample: Sample, s: MixedSegment): Option<Sample> {
    if s.kind == Bopomofo then
      if s.reading == [] || s.candidates == [] || s.candidates[0] == 0 || !IsScalar(s.candidates[0]) then None
      else Some(Sample(sample.answer + EncodeUtf16(s.candidates[0]), sample.entries + [CommitEntry(s.reading, s.candidates[0], false, false)]))
    else
      match DecodeUtf16(s.raw)
      case None => None
      case Some(scalars) =>
        if 0 in scalars || (scalars != [] && |sample.entries| + |scalars| > MAX_ENTRIES) then None
        else Some(Sample(sample.answer + Utf16(scalars), sample.entries + LiteralEntries(scalars)))
  }

  function GatheredAll(sample: Sample, segments: seq<MixedSegment>): Option<Sample>
    decreases |segments|
  {
    if segments == [] then Some(sample)
    else
      match Gathered(sample, segments[0])
      case None => None
      case Some(next) => GatheredAll(next, segments[1..])
  }

  predicate Trainable(segments: seq<MixedSegment>) {
    exists i :: 0 <= i < |segments| && segments[i].kind == Bopomofo
  }

  function PathSample(segments: seq<MixedSegment>, committed: Text): Option<Sample> {
    if segments == [] || |segments| > MAX_ENTRIES || !Trainable(segments) then None
    else
      match GatheredAll(Sample([], []), segments)
      case None => None
      case Some(sample) => WithTail(sample, committed)
  }

  /** The committed text starts with what the path shows. */
  predicate Explains(path: MixedPath, committed: Text) {
    path.rendered != [] && path.rendered <= committed
  }

  /** The first of the paths that explain the most of the committed text. */
  ghost predicate IsChosen(paths: seq<MixedPath>, committed: Text, chosen: Option<nat>) {
    match chosen
    case None => forall i :: 0 <= i < |paths| ==> !Explains(paths[i], committed)
    case Some(k) =>
      && k < |paths| && Explains(paths[k], committed)
      && forall i :: 0 <= i < |paths| && Explains(paths[i], committed) ==>
           |paths[i].rendered| < |paths[k].rendered| || (|paths[i].rendered| == |paths[k].rendered| && i >= k)
  }

  method ChoosePath(paths: seq<MixedPath>, committed: Text) returns (chosen: Option<nat>)
    ensures IsChosen(paths, committed, chosen)
  {
    chosen := None;
    var i := 0;
    Whole(paths);
    while i < |paths|
      invariant 0 <= i <= |paths| && IsChosen(paths[..i], committed, chosen)
    {
      PushOne(paths, i);
      if Explains(paths[i], committed) && (chosen.None? || |paths[i].rendered| > |paths[chosen.value].rendered|) {
        chosen := Some(i);
      }
      i := i + 1;
    }
    Whole(paths);
  }

  ghost function ChosenSample(paths: seq<MixedPath>, committed: Text, chosen: Option<nat>): Option<Sample>
    requires IsChosen(paths, committed, chosen)
  {
    match chosen
    case None => None
    case Some(k) => PathSample(paths[k].segments, committed)
  }

  method MixedTrainingSample(paths: seq<MixedPath>, committed: Text) returns (r: Option<Sample>)
    ensures exists chosen :: IsChosen(paths, committed, chosen) && r == ChosenSample(paths, committed, chosen)
  {
    hide Gathered, WithTail, IsChosen, Utf16, DecodeUtf16;
    var path := ChoosePath(paths, committed);
    ChosenInRange(paths, committed, path);
    assert IsChosen(paths, committed, path);
    if path.None? {
      return None;
    }
    var segments := paths[path.value].segments;
    if segments == [] || |segments| > MAX_ENTRIES {
      return None;
    }
    var sample := Sample([], []);
    var trainable := false;
    var i := 0;
    Whole(segments);
    while i < |segments|
      invariant 0 <= i <= |segments|
      invariant GatheredAll(Sample([], []), segments) == GatheredAll(sample, segments[i..])
      invariant trainable <==> exists k :: 0 <= k < i && segments[k].kind == Bopomofo
    {
      PushOne(segments, i);
      var next := GatherOne(sample, segments[i]);
      if next.None? {
        return None;
      }
      trainable := trainable || segments[i].kind == Bopomofo;
      sample := next.value;
      i := i + 1;
    }
    Whole(segments);
    if !trainable {
      return None;
    }
    r := AppendLiteralTail(sample, committed);
  }

  lemma ChosenInRange(paths: seq<MixedPath>, committed: Text, chosen: Option<nat>)
    requires IsChosen(paths, committed, chosen)
    ensures chosen.Some? ==> chosen.value < |paths|
  {
  }

  method GatherOne(sample: Sample, s: MixedSegment) returns (r: Option<Sample>)
    ensures r == Gathered(sample, s)
  {
    hide Utf16, DecodeUtf16;
    if s.kind == Bopomofo {
      if s.reading == [] || s.candidates == [] || s.candidates[0] == 0 || !IsScalar(s.candidates[0]) {
        return None;
      }
      return Some(Sample(sample.answer + EncodeUtf16(s.candidates[0]),
                         sample.entries + [CommitEntry(s.reading, s.candidates[0], false, false)]));
    }
    var scalars := Decoded(s.raw);
    if scalars.None? {
      return None;
    }
    var entries := AppendLiterals(sample.entries, scalars.value);
    if entries.None? {
      return None;
    }
    return Some(Sample(sample.answer + Utf16(scalars.value), entries.value));
  }

  // ----- every sample is acceptable -----

  /** The answer is the encoding of the scalars, one entry for each. */
  ghost predicate SpelledBy(sample: Sample, scalars: seq<Scalar>) {
    sample.answer == Utf16(scalars) && |sample.entries| == |scalars| &&
    forall i :: 0 <= i < |scalars| ==> sample.entries[i].character == scalars[i]
  }

  predicate AllAcceptable(entries: seq<CommitEntry>) {
    forall i :: 0 <= i < |entries| ==> EntryAcceptable(entries[i])
  }

  lemma {:induction false} AsLongAsItsScalars(scalars: seq<Scalar>)
    ensures |scalars| <= |Utf16(scalars)|
  {
    if scalars != [] {
      AsLongAsItsScalars(scalars[1..]);
    }
  }

  lemma LiteralsAcceptable(scalars: seq<Scalar>)
    requires 0 !in scalars
    ensures AllAcceptable(LiteralEntries(scalars))
  {
  }

  lemma Joined(a: Sample, b: Sample, p: seq<Scalar>, q: seq<Scalar>)
    requires SpelledBy(a, p) && SpelledBy(b, q)
    ensures SpelledBy(Sample(a.answer + b.answer, a.entries + b.entries), p + q)
    ensures AllAcceptable(a.entries) && AllAcceptable(b.entries) ==> AllAcceptable(a.entries + b.entries)
  {
    hide EntryAcceptable;
    Utf16Append(p, q);
  }

  /** The tail keeps a spelled sample spelled. */
  lemma TailSpells(sample: Sample, scalars: seq<Scalar>, committed: Text) returns (all: seq<Scalar>)
    requires SpelledBy(sample, scalars) && AllAcceptable(sample.entries) && WithTail(sample, committed).Some?
    ensures var r := WithTail(sample, committed).value;
      SpelledBy(r, all) && AllAcceptable(r.entries) && sample.entries <= r.entries && r.answer == committed && |committed| <= MAX_ANSWER
  {
    hide DecodeUtf16, EntryAcceptable;
    var rest := committed[|sample.answer|..];
    Utf16OfDecode(rest);
    var tail := DecodeUtf16(rest).value;
    LiteralsAcceptable(tail);
    assert sample.answer == committed[..|sample.answer|];
    CutAt(committed, |sample.answer|);
    Joined(sample, Sample(rest, LiteralEntries(tail)), scalars, tail);
    all := scalars + tail;
  }

  /** A spelled sample of acceptable entries passes every check of the service. */
  lemma SpelledIsAcceptable(sample: Sample, scalars: seq<Scalar>, event: Id, source: Id, context: Text)
    requires SpelledBy(sample, scalars) && AllAcceptable(sample.entries) && |sample.answer| <= MAX_ANSWER
    requires exists i :: 0 <= i < |sample.entries| && !sample.entries[i].literal
    requires !IsZero(event) && !IsZero(source) && |context| <= 4096 && ValidUtf16(context)
    ensures Acceptable(Commit(event, source, context, sample.answer, sample.entries))
  {
    hide EntryAcceptable, IsZero, DecodeUtf16;
    DecodeOfUtf16(scalars);
    AsLongAsItsScalars(scalars);
    assert scalars == Characters(sample.entries);
  }

  // ----- readings -----

  predicate ReadingFits(reading: Text) {
    1 <= |reading| <= 64 && ValidUtf16(reading)
  }

  lemma {:induction false} PlainUnits(text: Text)
    requires forall i :: 0 <= i < |text| ==> !IsHigh(text[i]) && !IsLow(text[i])
    ensures ValidUtf16(text)
  {
    if text != [] {
      PlainUnits(text[1..]);
    }
  }

  lemma SyllableFits(s: Syllables.Syllable)
    requires s.Proper() && !s.Empty()
    ensures ReadingFits(s.Text())
  {
    hide DecodeUtf16;
    PlainUnits(s.Text());
  }

  lemma SoundReadingFits(s: Segment)
    requires s.Sound() && s.literal == 0
    ensures ReadingFits(s.Reading())
  {
    hide ReadingFits;
    SyllableFits(s.syllable);
  }

  /** The reading of a decoded syllable is that of a syllable that was really typed. */
  lemma DecodedReadingFits(body: Text, toneKey: nat, layout: Keymap.Layout)
    requires MixedDecoder.ReplayedReading(body, toneKey, layout).Some?
    ensures ReadingFits(MixedDecoder.ReplayedReading(body, toneKey, layout).value)
  {
    hide Compositions.AddKeys, ReadingFits;
    CompositionRuns.AddKeysFollows(Compositions.EMPTY, body, toneKey, layout, true);
    Replay.CompletedSyllable(body, toneKey, layout, true);
    SoundReadingFits(Compositions.AddKeys(Compositions.EMPTY, body, toneKey, layout, true).0.segments[0]);
  }

  // ----- samples from the composition -----

  lemma {:induction false} SegmentsSpell(segments: seq<Segment>) returns (scalars: seq<Scalar>)
    requires forall i :: 0 <= i < |segments| ==> Sampled(segments[i]) && IsScalar(segments[i].SelectedCandidate())
    ensures SpelledBy(Sample(Compositions.Rendered(segments), EntriesOf(segments)), scalars)
  {
    if segments == [] {
      scalars := [];
    } else {
      var rest := SegmentsSpell(segments[1..]);
      var c: Scalar := segments[0].SelectedCandidate();
      assert segments[0].RenderedText() == Compositions.Units(c) == EncodeUtf16(c);
      scalars := [c] + rest;
      assert EntriesOf(segments) == [EntryOf(segments[0])] + EntriesOf(segments[1..]);
    }
  }

  lemma SegmentEntryAcceptable(s: Segment)
    requires s.Sound() && Sampled(s)
    ensures EntryAcceptable(EntryOf(s)) <==> IsScalar(s.SelectedCandidate())
  {
    hide DecodeUtf16;
    if s.literal == 0 {
      SoundReadingFits(s);
    }
  }

  /** A sample of the composition spells the committed text, and the service accepts it exactly when every
      character of the composition is a Unicode scalar. */
  lemma CompositionSampleAcceptable(segments: seq<Segment>, committed: Text, event: Id, source: Id, context: Text)
    requires forall i :: 0 <= i < |segments| ==> segments[i].Sound()
    requires SampleOf(segments, committed).Some?
    requires !IsZero(event) && !IsZero(source) && |context| <= 4096 && ValidUtf16(context)
    ensures var sample := SampleOf(segments, committed).value;
      && sample.answer == committed
      && (Acceptable(Commit(event, source, context, sample.answer, sample.entries)) <==>
          forall i :: 0 <= i < |segments| ==> IsScalar(segments[i].SelectedCandidate()))
  {
    hide EntryAcceptable, DecodeUtf16, Sampled, EntryOf, Spells, IsZero, Compositions.Rendered;
    var sample := SampleOf(segments, committed).value;
    var whole := Sample(Compositions.Rendered(segments), EntriesOf(segments));
    TailKeepsEntries(whole, committed);
    forall i | 0 <= i < |segments| ensures EntryAcceptable(sample.entries[i]) <==> IsScalar(segments[i].SelectedCandidate()) {
      SegmentEntryAcceptable(segments[i]);
      assert sample.entries[i] == whole.entries[i];
    }
    if forall i :: 0 <= i < |segments| ==> IsScalar(segments[i].SelectedCandidate()) {
      var scalars := SegmentsSpell(segments);
      assert AllAcceptable(whole.entries) by {
        assert forall i :: 0 <= i < |segments| ==> sample.entries[i] == whole.entries[i];
      }
      var all := TailSpells(whole, scalars, committed);
      var k :| 0 <= k < |segments| && segments[k].literal == 0;
      SegmentNotLiteral(segments[k]);
      assert sample.entries[k] == whole.entries[k];
      SpelledIsAcceptable(sample, all, event, source, context);
    } else {
      var k :| 0 <= k < |segments| && !IsScalar(segments[k].SelectedCandidate());
      assert !EntryAcceptable(sample.entries[k]);
    }
  }

  lemma SegmentNotLiteral(s: Segment)
    requires s.literal == 0
    ensures !EntryOf(s).literal
  {
  }

  lemma TailKeepsEntries(sample: Sample, committed: Text)
    requires WithTail(sample, committed).Some?
    ensures var r := WithTail(sample, committed).value;
      sample.entries <= r.entries && r.answer == committed && |committed| <= MAX_ANSWER
  {
    hide DecodeUtf16;
  }

  // ----- samples from decoded paths -----

  lemma GatheredSpells(sample: Sample, scalars: seq<Scalar>, s: MixedSegment) returns (all: seq<Scalar>)
    requires SpelledBy(sample, scalars) && AllAcceptable(sample.entries) && Gathered(sample, s).Some?
    requires s.kind == Bopomofo ==> ReadingFits(s.reading)
    ensures SpelledBy(Gathered(sample, s).value, all) && AllAcceptable(Gathered(sample, s).value.entries)
    ensures sample.entries <= Gathered(sample, s).value.entries
    ensures s.kind == Bopomofo ==> |Gathered(sample, s).value.entries| > |sample.entries| &&
                                   !Gathered(sample, s).value.entries[|sample.entries|].literal
  {
    hide DecodeUtf16;
    if s.kind == Bopomofo {
      var c: Scalar := s.candidates[0];
      var one := Sample(EncodeUtf16(c), [CommitEntry(s.reading, c, false, false)]);
      assert SpelledBy(one, [c]) by {
        NothingAdded(EncodeUtf16(c));
        assert Utf16([c]) == EncodeUtf16(c) + Utf16([c][1..]);
      }
      assert EntryAcceptable(one.entries[0]);
      Joined(sample, one, scalars, [c]);
      all := scalars + [c];
    } else {
      var added := DecodeUtf16(s.raw).value;
      LiteralsAcceptable(added);
      Joined(sample, Sample(Utf16(added), LiteralEntries(added)), scalars, added);
      all := scalars + added;
    }
  }

  lemma {:induction false} GatheredAllSpells(sample: Sample, scalars: seq<Scalar>, segments: seq<MixedSegment>) returns (all: seq<Scalar>)
    requires SpelledBy(sample, scalars) && AllAcceptable(sample.entries) && GatheredAll(sample, segments).Some?
    requires forall i :: 0 <= i < |segments| && segments[i].kind == Bopomofo ==> ReadingFits(segments[i].reading)
    ensures var r := GatheredAll(sample, segments).value;
      && SpelledBy(r, all) && AllAcceptable(r.entries) && sample.entries <= r.entries
      && (Trainable(segments) ==> exists i :: 0 <= i < |r.entries| && !r.entries[i].literal)
    decreases |segments|
  {
    hide Gathered, SpelledBy, AllAcceptable, ReadingFits;
    if segments == [] {
      all := scalars;
    } else {
      var next := Gathered(sample, segments[0]).value;
      var more := GatheredSpells(sample, scalars, segments[0]);
      all := GatheredAllSpells(next, more, segments[1..]);
      var r := GatheredAll(sample, segments).value;
      if segments[0].kind == Bopomofo {
        assert !r.entries[|sample.entries|].literal;
      } else if Trainable(segments) {
        var k :| 0 <= k < |segments| && segments[k].kind == Bopomofo;
        assert segments[1..][k - 1].kind == Bopomofo;
      }
    }
  }

  /** Every sample of a decoded path spells the committed text and is accepted by the service. */
  lemma PathSampleAcceptable(path: MixedPath, committed: Text, raw: Text, layout: Keymap.Layout, spaceTone: bool,
                             lookup: Text -> seq<nat>, event: Id, source: Id, context: Text)
    requires MixedDecoder.PathOf(path, raw, layout, spaceTone, lookup)
    requires PathSample(path.segments, committed).Some?
    requires !IsZero(event) && !IsZero(source) && |context| <= 4096 && ValidUtf16(context)
    ensures var sample := PathSample(path.segments, committed).value;
      sample.answer == committed && Acceptable(Commit(event, source, context, sample.answer, sample.entries))
  {
    hide EntryAcceptable, DecodeUtf16, IsZero, ReadingFits, MixedDecoder.ReplayedReading, SpelledBy, WithTail;
    var segments := path.segments;
    forall i | 0 <= i < |segments| && segments[i].kind == Bopomofo ensures ReadingFits(segments[i].reading) {
      assert segments[i] in segments;
      DecodedReadingFits(segments[i].bodyKeys, segments[i].toneKey, layout);
    }
    NothingSpelled();
    var scalars := GatheredAllSpells(Sample([], []), [], segments);
    var gathered := GatheredAll(Sample([], []), segments).value;
    var all := TailSpells(gathered, scalars, committed);
    var sample := PathSample(segments, committed).value;
    var k :| 0 <= k < |gathered.entries| && !gathered.entries[k].literal;
    assert sample.entries[k] == gathered.entries[k];
    SpelledIsAcceptable(sample, all, event, source, context);
  }

  lemma NothingSpelled()
    ensures SpelledBy(Sample([], []), []) && AllAcceptable(Sample([], []).entries)
  {
  }
}
