/** Forcing stored phrases onto a composition (engine/src/input/input_processor.cpp). */
module PhrasePinning {
  import opened Wrappers
  import opened Sequences
  import Utf
  import opened Compositions
  import opened CompositionRuns
  import opened CompositionBuffers
  import PhraseStore
  import opened PhraseOverrides

  const MIN := PhraseStore.MIN_READINGS
  const MAX := PhraseStore.MAX_READINGS

  /** A segment that can take part in a stored phrase. */
  predicate Usable(s: Segment) {
    s.Complete() && s.literal == 0 && s.VisibleCandidate() && !s.ExplicitlyChosen()
  }

  function ReadingsOf(segments: seq<Segment>, start: nat, length: nat): (readings: seq<Text>)
    requires start + length <= |segments|
    ensures |readings| == length && forall i :: 0 <= i < length ==> readings[i] == segments[start + i].Reading()
  {
    seq(length, i requires 0 <= i < length => segments[start + i].Reading())
  }

  lemma NoReadings(segments: seq<Segment>, start: nat)
    requires start <= |segments|
    ensures ReadingsOf(segments, start, 0) == []
  {
  }

  lemma ReadingsPush(segments: seq<Segment>, start: nat, length: nat)
    requires start + length < |segments|
    ensures ReadingsOf(segments, start, length + 1) == ReadingsOf(segments, start, length) + [segments[start + length].Reading()]
  {
  }

  // ----- where a pass matches -----

  /** The longest stored phrase of at most `length` readings at `start`, 0 when there is none. */
  function LongestStored(phrases: Phrases, segments: seq<Segment>, start: nat, length: nat): (n: nat)
    requires start + length <= |segments|
    ensures n <= length
  {
    if length < MIN then 0
    else if Lookup(phrases, ReadingsOf(segments, start, length)).Some? then length
    else LongestStored(phrases, segments, start, length - 1)
  }

  /** The number of usable segments in a row from `start` on. */
  function UsableLength(segments: seq<Segment>, start: nat): (n: nat)
    requires start <= |segments|
    ensures start + n <= |segments|
    ensures forall i :: start <= i < start + n ==> Usable(segments[i])
    ensures start + n < |segments| ==> !Usable(segments[start + n])
    decreases |segments| - start
  {
    if start < |segments| && Usable(segments[start]) then 1 + UsableLength(segments, start + 1) else 0
  }

  function MatchAt(phrases: Phrases, segments: seq<Segment>, start: nat): (n: nat)
    requires start <= |segments|
    ensures start + n <= |segments|
  {
    var usable := UsableLength(segments, start);
    LongestStored(phrases, segments, start, if usable < MAX then usable else MAX)
  }

  /** A stored phrase covers the usable segments from `start` on. */
  ghost predicate StoredOver(phrases: Phrases, segments: seq<Segment>, start: nat, length: nat) {
    && MIN <= length <= MAX && start + length <= |segments|
    && (forall i :: start <= i < start + length ==> Usable(segments[i]))
    && Lookup(phrases, ReadingsOf(segments, start, length)).Some?
  }

  lemma {:induction false} LongestIsLongest(phrases: Phrases, segments: seq<Segment>, start: nat, length: nat)
    requires start + length <= |segments|
    ensures var n := LongestStored(phrases, segments, start, length);
      && (n > 0 ==> n >= MIN && Lookup(phrases, ReadingsOf(segments, start, n)).Some?)
      && forall m :: n < m <= length && m >= MIN ==> Lookup(phrases, ReadingsOf(segments, start, m)).None?
  {
    hide Lookup;
    if length >= MIN && Lookup(phrases, ReadingsOf(segments, start, length)).None? {
      LongestIsLongest(phrases, segments, start, length - 1);
    }
  }

  /** The match at a position is the longest stored phrase over usable segments there, if any. */
  lemma MatchIsLongest(phrases: Phrases, segments: seq<Segment>, start: nat)
    requires start <= |segments|
    ensures var n := MatchAt(phrases, segments, start);
      && (n > 0 ==> StoredOver(phrases, segments, start, n))
      && forall m :: m > n ==> !StoredOver(phrases, segments, start, m)
  {
    hide Lookup, Usable, LongestStored;
    var usable := UsableLength(segments, start);
    LongestIsLongest(phrases, segments, start, if usable < MAX then usable else MAX);
    assert start + usable < |segments| ==> !Usable(segments[start + usable]);
  }

  datatype Range = Range(start: nat, length: nat)

  /** The ranges matched from `start` on. */
  function Ranges(phrases: Phrases, segments: seq<Segment>, start: nat): seq<Range>
    requires start <= |segments|
    decreases |segments| - start
  {
    if start == |segments| then []
    else
      var n := MatchAt(phrases, segments, start);
      if n == 0 then Ranges(phrases, segments, start + 1)
      else [Range(start, n)] + Ranges(phrases, segments, start + n)
  }

  predicate Covers(r: Range, i: nat) {
    r.start <= i < r.start + r.length
  }

  predicate Before(a: Range, b: Range) {
    a.start + a.length <= b.start
  }

  predicate Uncovered(ranges: seq<Range>, i: nat) {
    forall k :: 0 <= k < |ranges| ==> !Covers(ranges[k], i)
  }

  /** The longest stored phrase at its start. */
  ghost predicate Longest(phrases: Phrases, segments: seq<Segment>, r: Range) {
    StoredOver(phrases, segments, r.start, r.length) && forall m :: m > r.length ==> !StoredOver(phrases, segments, r.start, m)
  }

  ghost predicate NothingStoredAt(phrases: Phrases, segments: seq<Segment>, start: nat) {
    forall m :: !StoredOver(phrases, segments, start, m)
  }

  /** The ranges as the source promises them: in order and disjoint, each the longest stored phrase at its
      start, and no stored phrase starts where none of them lies. */
  ghost predicate LeftmostLongest(phrases: Phrases, segments: seq<Segment>, from: nat, ranges: seq<Range>) {
    && (forall k :: 0 <= k < |ranges| ==> from <= ranges[k].start && Longest(phrases, segments, ranges[k]))
    && (forall j, k :: 0 <= j < k < |ranges| ==> Before(ranges[j], ranges[k]))
    && (forall i :: from <= i < |segments| && Uncovered(ranges, i) ==> NothingStoredAt(phrases, segments, i))
  }

  lemma MatchIsLongestRange(phrases: Phrases, segments: seq<Segment>, start: nat)
    requires start <= |segments|
    ensures var n := MatchAt(phrases, segments, start);
      if n == 0 then NothingStoredAt(phrases, segments, start) else Longest(phrases, segments, Range(start, n))
    ensures forall m :: Longest(phrases, segments, Range(start, m)) ==> m == MatchAt(phrases, segments, start)
  {
    hide MatchAt, ReadingsOf, Lookup;
    MatchIsLongest(phrases, segments, start);
    var n := MatchAt(phrases, segments, start);
    forall m | Longest(phrases, segments, Range(start, m)) ensures m == n {
      assert StoredOver(phrases, segments, start, m);
      assert n > 0 ==> StoredOver(phrases, segments, start, n);
    }
  }

  lemma LongestHasLength(phrases: Phrases, segments: seq<Segment>, r: Range)
    requires Longest(phrases, segments, r)
    ensures 0 < r.length && r.start + r.length <= |segments| && !NothingStoredAt(phrases, segments, r.start)
  {
  }

  lemma {:induction false} RangesAreLeftmostLongest(phrases: Phrases, segments: seq<Segment>, from: nat)
    requires from <= |segments|
    ensures LeftmostLongest(phrases, segments, from, Ranges(phrases, segments, from))
    decreases |segments| - from
  {
    hide Longest, NothingStoredAt, MatchAt;
    if from < |segments| {
      MatchIsLongestRange(phrases, segments, from);
      var n := MatchAt(phrases, segments, from);
      if n == 0 {
        RangesAreLeftmostLongest(phrases, segments, from + 1);
      } else {
        RangesAreLeftmostLongest(phrases, segments, from + n);
        RangeInFront(phrases, segments, Range(from, n), Ranges(phrases, segments, from + n));
      }
    }
  }

  lemma RangeInFront(phrases: Phrases, segments: seq<Segment>, first: Range, rest: seq<Range>)
    requires Longest(phrases, segments, first) && LeftmostLongest(phrases, segments, first.start + first.length, rest)
    ensures LeftmostLongest(phrases, segments, first.start, [first] + rest)
  {
    hide Longest, NothingStoredAt;
    var ranges := [first] + rest;
    assert forall k :: 0 <= k < |rest| ==> ranges[k + 1] == rest[k];
    forall i | first.start <= i < |segments| && Uncovered(ranges, i) ensures NothingStoredAt(phrases, segments, i) {
      assert !Covers(ranges[0], i);
      assert Uncovered(rest, i);
    }
  }

  lemma RangeBehind(phrases: Phrases, segments: seq<Segment>, first: Range, rest: seq<Range>)
    requires LeftmostLongest(phrases, segments, first.start, [first] + rest)
    ensures LeftmostLongest(phrases, segments, first.start + first.length, rest)
  {
    hide Longest, NothingStoredAt;
    var ranges := [first] + rest;
    assert forall k :: 0 <= k < |rest| ==> ranges[k + 1] == rest[k];
    forall k | 0 <= k < |rest| ensures first.start + first.length <= rest[k].start {
      assert Before(ranges[0], ranges[k + 1]);
    }
    forall i | first.start + first.length <= i < |segments| && Uncovered(rest, i) ensures NothingStoredAt(phrases, segments, i) {
      forall k | 0 <= k < |ranges| ensures !Covers(ranges[k], i) {
        assert k > 0 ==> ranges[k] == rest[k - 1];
      }
      assert Uncovered(ranges, i);
    }
  }

  /** That description determines the ranges. */
  lemma {:induction false} LeftmostLongestIsUnique(phrases: Phrases, segments: seq<Segment>, from: nat, ranges: seq<Range>)
    requires from <= |segments| && LeftmostLongest(phrases, segments, from, ranges)
    ensures ranges == Ranges(phrases, segments, from)
    decreases |segments| - from
  {
    hide Longest, NothingStoredAt, MatchAt;
    if ranges != [] {
      LongestHasLength(phrases, segments, ranges[0]);
    }
    if from < |segments| {
      MatchIsLongestRange(phrases, segments, from);
      if ranges != [] && ranges[0].start == from {
        PushOne(ranges, 0);
        Whole(ranges);
        RangeBehind(phrases, segments, ranges[0], ranges[1..]);
        LeftmostLongestIsUnique(phrases, segments, from + ranges[0].length, ranges[1..]);
      } else {
        AllLater(phrases, segments, from, ranges);
        LongestStartsSomewhere(phrases, segments, Range(from, MatchAt(phrases, segments, from)));
        LeftmostLongestIsUnique(phrases, segments, from + 1, ranges);
      }
    }
  }

  lemma LongestStartsSomewhere(phrases: Phrases, segments: seq<Segment>, r: Range)
    ensures Longest(phrases, segments, r) ==> !NothingStoredAt(phrases, segments, r.start)
  {
  }

  lemma AllLater(phrases: Phrases, segments: seq<Segment>, from: nat, ranges: seq<Range>)
    requires from < |segments| && LeftmostLongest(phrases, segments, from, ranges) && (ranges == [] || ranges[0].start != from)
    ensures NothingStoredAt(phrases, segments, from) && LeftmostLongest(phrases, segments, from + 1, ranges)
  {
    hide Longest, NothingStoredAt;
    forall k | 0 <= k < |ranges| ensures ranges[k].start > from {
      assert k > 0 ==> Before(ranges[0], ranges[k]);
    }
    assert Uncovered(ranges, from);
  }

  // ----- what is pinned -----

  /** The code points of the phrase stored for the readings of a range; none when there is no such phrase. */
  function PhraseOver(phrases: Phrases, segments: seq<Segment>, start: nat, length: nat): seq<Char>
    requires start + length <= |segments|
  {
    match Lookup(phrases, ReadingsOf(segments, start, length))
    case None => []
    case Some(phrase) =>
      match Utf.Utf16ToUtf8(phrase)
      case None => []
      case Some(utf8) => match Utf.DecodeUtf8(utf8) case None => [] case Some(scalars) => Chars(scalars)
  }

  function Chars(scalars: seq<Utf.Scalar>): (cs: seq<Char>)
    ensures |cs| == |scalars| && forall i :: 0 <= i < |cs| ==> cs[i] == scalars[i]
  {
    seq(|scalars|, i requires 0 <= i < |scalars| => scalars[i] as int)
  }

  /** A stored phrase has one code point for each of its readings, because a key names its readings. */
  lemma PhraseFillsRange(phrases: Phrases, readings: seq<Text>) returns (scalars: seq<Utf.Scalar>)
    requires WellFormed(phrases) && Lookup(phrases, readings).Some?
    ensures var phrase := Lookup(phrases, readings).value;
      && Utf.Utf16ToUtf8(phrase) == Some(Utf.Utf8(scalars)) && Utf.DecodeUtf8(Utf.Utf8(scalars)) == Some(scalars)
      && Utf.Utf16(scalars) == phrase && |scalars| == |readings|
  {
    var phrase := Lookup(phrases, readings).value;
    var key := PhraseStore.ReadingKey(readings).value;
    hide PhraseStore.ReadingKey, PhraseStore.Trimmed;
    assert Stored(key, phrase);
    var stored :| PhraseStore.ReadingKey(stored) == Some(key) && PhraseStore.ValidEntry(phrase, |stored|);
    PhraseStore.KeyIsInjective(readings, stored);
    Utf.Utf16OfDecode(phrase);
    scalars := Utf.DecodeUtf16(phrase).value;
    Utf.DecodeOfUtf8(scalars);
  }

  lemma PhraseOverFills(phrases: Phrases, segments: seq<Segment>, start: nat, length: nat)
    requires WellFormed(phrases) && StoredOver(phrases, segments, start, length)
    ensures |PhraseOver(phrases, segments, start, length)| == length
  {
    hide Lookup, WellFormed;
    var scalars := PhraseFillsRange(phrases, ReadingsOf(segments, start, length));
  }

  /** Pinning leaves what a phrase is matched by. */
  ghost predicate SameShape(a: seq<Segment>, b: seq<Segment>) {
    |a| == |b| && forall i :: 0 <= i < |a| ==> Usable(a[i]) == Usable(b[i]) && a[i].Reading() == b[i].Reading()
  }

  lemma PinnedShape(segments: seq<Segment>, offset: nat, phrase: seq<Char>)
    requires offset + |phrase| <= |segments| && forall i :: offset <= i < offset + |phrase| ==> Usable(segments[i])
    ensures SameShape(segments, PinnedSegments(segments, offset, phrase))
  {
    hide Without;
  }

  lemma SameReadingsOf(a: seq<Segment>, b: seq<Segment>, start: nat, length: nat)
    requires SameShape(a, b) && start + length <= |a|
    ensures ReadingsOf(a, start, length) == ReadingsOf(b, start, length)
  {
  }

  lemma {:induction false} SameUsable(a: seq<Segment>, b: seq<Segment>, start: nat)
    requires SameShape(a, b) && start <= |a|
    ensures UsableLength(a, start) == UsableLength(b, start)
    decreases |a| - start
  {
    hide Usable;
    if start < |a| {
      SameUsable(a, b, start + 1);
    }
  }

  lemma {:induction false} SameLongest(phrases: Phrases, a: seq<Segment>, b: seq<Segment>, start: nat, length: nat)
    requires SameShape(a, b) && start + length <= |a|
    ensures LongestStored(phrases, a, start, length) == LongestStored(phrases, b, start, length)
  {
    hide Lookup, SameShape;
    if length >= MIN {
      SameReadingsOf(a, b, start, length);
      SameLongest(phrases, a, b, start, length - 1);
    }
  }

  lemma SameMatch(phrases: Phrases, a: seq<Segment>, b: seq<Segment>, start: nat)
    requires SameShape(a, b) && start <= |a|
    ensures MatchAt(phrases, a, start) == MatchAt(phrases, b, start)
  {
    hide SameShape, LongestStored;
    SameUsable(a, b, start);
    var usable := UsableLength(a, start);
    SameLongest(phrases, a, b, start, if usable < MAX then usable else MAX);
  }

  lemma RangesStep(phrases: Phrases, segments: seq<Segment>, start: nat)
    requires start <= |segments|
    ensures Ranges(phrases, segments, start) ==
      if start == |segments| then []
      else if MatchAt(phrases, segments, start) == 0 then Ranges(phrases, segments, start + 1)
      else [Range(start, MatchAt(phrases, segments, start))] + Ranges(phrases, segments, start + MatchAt(phrases, segments, start))
  {
  }

  lemma {:induction false} SameRanges(phrases: Phrases, a: seq<Segment>, b: seq<Segment>, start: nat)
    requires |a| == |b| && SameShape(a, b) && start <= |a|
    ensures Ranges(phrases, a, start) == Ranges(phrases, b, start)
    decreases |a| - start
  {
    hide *;
    RangesStep(phrases, a, start);
    RangesStep(phrases, b, start);
    if start < |a| {
      SameMatch(phrases, a, b, start);
      var n := MatchAt(phrases, a, start);
      SameRanges(phrases, a, b, if n == 0 then start + 1 else start + n);
    }
  }

  // ----- old pins -----

  /** A maximal run of pinned segments. */
  predicate PinnedRun(segments: seq<Segment>, start: nat, end: nat) {
    && start < end <= |segments|
    && (forall i :: start <= i < end ==> segments[i].phraseOverrideChosen)
    && (start > 0 ==> !segments[start - 1].phraseOverrideChosen)
    && (end < |segments| ==> !segments[end].phraseOverrideChosen)
  }

  /** The run still reads as a stored phrase. */
  predicate RunHolds(phrases: Phrases, segments: seq<Segment>, start: nat, end: nat)
    requires start <= end <= |segments|
  {
    (forall i :: start <= i < end ==> Usable(segments[i])) && Lookup(phrases, ReadingsOf(segments, start, end - start)).Some?
  }

  ghost predicate InHoldingRun(phrases: Phrases, segments: seq<Segment>, i: nat) {
    exists start: nat, end: nat :: start <= i < end && PinnedRun(segments, start, end) && RunHolds(phrases, segments, start, end)
  }

  /** A segment after the old pins were checked. */
  ghost function Checked(phrases: Phrases, segments: seq<Segment>, i: nat): Segment
    requires i < |segments|
  {
    if InHoldingRun(phrases, segments, i) then segments[i] else Unpinned(segments[i])
  }

  lemma RunIsUnique(phrases: Phrases, segments: seq<Segment>, start: nat, end: nat, i: nat)
    requires PinnedRun(segments, start, end) && start <= i < end
    ensures InHoldingRun(phrases, segments, i) <==> RunHolds(phrases, segments, start, end)
  {
    hide RunHolds;
    forall s: nat, e: nat | s <= i < e && PinnedRun(segments, s, e) ensures s == start && e == end {
    }
  }

  ghost predicate CheckedBelow(phrases: Phrases, before: seq<Segment>, after: seq<Segment>, index: nat) {
    && |after| == |before| && index <= |before|
    && (forall i :: 0 <= i < index ==> after[i] == Checked(phrases, before, i))
    && (forall i :: index <= i < |before| ==> after[i] == before[i])
  }

  lemma CheckedRun(phrases: Phrases, before: seq<Segment>, after: seq<Segment>, start: nat, end: nat)
    requires CheckedBelow(phrases, before, after, start) && PinnedRun(before, start, end)
    ensures RunHolds(phrases, before, start, end) ==> CheckedBelow(phrases, before, after, end)
    ensures !RunHolds(phrases, before, start, end) ==>
      CheckedBelow(phrases, before, UnpinnedSegments(after, start, end - start), end)
  {
    hide RunHolds, InHoldingRun, Unpinned;
    forall i | start <= i < end ensures InHoldingRun(phrases, before, i) <==> RunHolds(phrases, before, start, end) {
      RunIsUnique(phrases, before, start, end, i);
    }
  }

  lemma CheckedShape(phrases: Phrases, before: seq<Segment>, after: seq<Segment>)
    requires CheckedBelow(phrases, before, after, |before|)
    ensures SameShape(before, after)
  {
    hide InHoldingRun;
  }

  lemma PinsCleared(b: Composition, offset: nat, count: nat)
    requires b.Valid()
    ensures var c := ClearPins(b, offset, count).0;
      && Follows(b, c) && c.segments == UnpinnedSegments(b.segments, offset, count)
      && c.caret == b.caret && c.anchor == b.anchor && c.lastEdited == b.lastEdited
  {
    hide UnpinnedSegments;
    UnpinsFollow(b, offset, count);
  }

  /** Releases the pins whose readings are no longer those of a stored phrase. */
  method CheckPins(buffer: CompositionBuffer, store: PhraseOverrideStore)
    requires buffer.Valid()
    modifies buffer
    ensures buffer.Valid() && Follows(old(buffer.Value()), buffer.Value())
    ensures buffer.caret == old(buffer.caret) && buffer.anchor == old(buffer.anchor) && buffer.lastEdited == old(buffer.lastEdited)
    ensures CheckedBelow(store.phrases, old(buffer.segments), buffer.segments, |buffer.segments|)
  {
    hide Lookup, Checked, ClearPins, UnpinnedSegments, Usable;
    ghost var before := buffer.segments;
    var index := 0;
    while index < |buffer.segments|
      invariant buffer.Valid() && Follows(old(buffer.Value()), buffer.Value())
      invariant buffer.caret == old(buffer.caret) && buffer.anchor == old(buffer.anchor) && buffer.lastEdited == old(buffer.lastEdited)
      invariant CheckedBelow(store.phrases, before, buffer.segments, index)
      invariant 0 < index < |before| && before[index].phraseOverrideChosen ==> !before[index - 1].phraseOverrideChosen
      decreases |before| - index
    {
      if !buffer.segments[index].phraseOverrideChosen {
        NotPinned(store.phrases, before, buffer.segments, index);
        index := index + 1;
        continue;
      }
      var end, readings, valid := ScanRest(buffer.segments, index, before);
      CheckedRun(store.phrases, before, buffer.segments, index, end);
      if valid {
        var phrase := store.Find(readings);
        valid := phrase.Some?;
      }
      if !valid {
        PinsCleared(buffer.Value(), index, end - index);
        var _ := buffer.ClearPhraseOverrideChoices(index, end - index);
      }
      index := end;
    }
  }

  /** The readings of one pinned run, and whether all of it is usable; earlier runs may have been released. */
  method ScanRest(segments: seq<Segment>, index: nat, ghost before: seq<Segment>)
    returns (end: nat, readings: seq<Text>, usable: bool)
    requires index < |segments| == |before| && forall i :: index <= i < |before| ==> segments[i] == before[i]
    requires segments[index].phraseOverrideChosen && (index > 0 ==> !before[index - 1].phraseOverrideChosen)
    ensures PinnedRun(before, index, end) && readings == ReadingsOf(before, index, end - index)
    ensures usable <==> forall i :: index <= i < end ==> Usable(before[i])
  {
    hide Usable, ReadingsOf, Segment.Reading;
    NoReadings(before, index);
    end, readings, usable := index, [], true;
    while end < |segments| && segments[end].phraseOverrideChosen
      invariant index <= end <= |segments| && readings == ReadingsOf(before, index, end - index)
      invariant forall i :: index <= i < end ==> before[i].phraseOverrideChosen
      invariant usable <==> forall i :: index <= i < end ==> Usable(before[i])
    {
      ReadingsPush(before, index, end - index);
      usable := usable && Usable(segments[end]);
      readings := readings + [segments[end].Reading()];
      end := end + 1;
    }
  }

  lemma NotPinned(phrases: Phrases, before: seq<Segment>, after: seq<Segment>, index: nat)
    requires CheckedBelow(phrases, before, after, index) && index < |before| && !before[index].phraseOverrideChosen
    ensures CheckedBelow(phrases, before, after, index + 1)
  {
    hide InHoldingRun;
  }

  // ----- the pass -----

  /** `after` is `before` with every range showing its stored phrase and nothing else changed. */
  ghost predicate PinnedOver(phrases: Phrases, before: seq<Segment>, after: seq<Segment>, ranges: seq<Range>) {
    && |after| == |before|
    && (forall k :: 0 <= k < |ranges| ==> RangePinned(phrases, before, after, ranges[k]))
    && (forall i :: 0 <= i < |before| && Uncovered(ranges, i) ==> after[i] == before[i])
  }

  ghost predicate RangePinned(phrases: Phrases, before: seq<Segment>, after: seq<Segment>, r: Range) {
    && |after| == |before| && r.start + r.length <= |before|
    && var phrase := PhraseOver(phrases, before, r.start, r.length);
       |phrase| == r.length && forall i :: 0 <= i < r.length ==> after[r.start + i] == PinnedTo(before[r.start + i], phrase[i])
  }

  ghost predicate AllEndBy(ranges: seq<Range>, index: nat) {
    forall k :: 0 <= k < |ranges| ==> ranges[k].start + ranges[k].length <= index
  }

  lemma PinOneMore(phrases: Phrases, before: seq<Segment>, after: seq<Segment>, ranges: seq<Range>, r: Range)
    requires PinnedOver(phrases, before, after, ranges) && AllEndBy(ranges, r.start) && 0 < r.length
    requires r.start + r.length <= |before| && |PhraseOver(phrases, before, r.start, r.length)| == r.length
    ensures var pinned := PinnedSegments(after, r.start, PhraseOver(phrases, before, r.start, r.length));
      PinnedOver(phrases, before, pinned, ranges + [r]) && AllEndBy(ranges + [r], r.start + r.length)
  {
    hide PinnedTo, PhraseOver;
    var pinned := PinnedSegments(after, r.start, PhraseOver(phrases, before, r.start, r.length));
    var more := ranges + [r];
    assert forall k :: 0 <= k < |ranges| ==> more[k] == ranges[k];
    assert forall i :: r.start <= i < |before| ==> Uncovered(ranges, i);
    forall k | 0 <= k < |more| ensures RangePinned(phrases, before, pinned, more[k]) {
      if k < |ranges| {
        assert RangePinned(phrases, before, after, ranges[k]);
      }
    }
    forall i | 0 <= i < |before| && Uncovered(more, i) ensures pinned[i] == before[i] {
      assert !Covers(more[|ranges|], i);
      forall k | 0 <= k < |ranges| ensures !Covers(ranges[k], i) {
        assert !Covers(more[k], i);
      }
    }
  }

  lemma SamePhraseOver(phrases: Phrases, a: seq<Segment>, b: seq<Segment>, start: nat, length: nat)
    requires SameShape(a, b) && start + length <= |a|
    ensures PhraseOver(phrases, a, start, length) == PhraseOver(phrases, b, start, length)
  {
    SameReadingsOf(a, b, start, length);
  }

  lemma PhraseApplies(b: Composition, offset: nat, phrase: seq<Char>)
    requires b.Valid() && phrase != [] && offset + |phrase| <= |b.segments|
    requires forall i :: offset <= i < offset + |phrase| ==> Usable(b.segments[i])
    ensures var r := ApplyPhrase(b, offset, phrase);
      && r.1 && Follows(b, r.0) && r.0.segments == PinnedSegments(b.segments, offset, phrase)
      && r.0.caret == b.caret && r.0.anchor == b.anchor && r.0.lastEdited == b.lastEdited
  {
    hide PinnedSegments;
    PinsFollow(b, offset, phrase);
  }

  method Readings(segments: seq<Segment>, index: nat, length: nat) returns (readings: seq<Text>)
    requires index + length <= |segments|
    ensures readings == ReadingsOf(segments, index, length)
  {
    readings := [];
    var i := index;
    while i < index + length
      invariant index <= i <= index + length && readings == ReadingsOf(segments, index, i - index)
    {
      ReadingsPush(segments, index, i - index);
      readings := readings + [segments[i].Reading()];
      i := i + 1;
    }
  }

  /** The stored phrase for `length` readings from `index` on, as code points. */
  method FindPhrase(segments: seq<Segment>, store: PhraseOverrideStore, index: nat, length: nat) returns (phrase: Option<seq<Char>>)
    requires index + length <= |segments| && store.Valid()
    ensures phrase.Some? <==> Lookup(store.phrases, ReadingsOf(segments, index, length)).Some?
    ensures phrase.Some? ==> phrase.value == PhraseOver(store.phrases, segments, index, length) && |phrase.value| == length
  {
    hide Lookup, Utf.Utf8, Utf.DecodeUtf8, Utf.DecodeUtf16, WellFormed, ReadingsOf;
    var readings := Readings(segments, index, length);
    var found := store.Find(readings);
    if found.None? {
      return None;
    }
    ghost var scalars := PhraseFillsRange(store.phrases, readings);
    var utf8 := Utf.U16ToUtf8(found.value);
    var decoded := Utf.Utf8ToU32(utf8.value);
    return Some(Chars(decoded.value));
  }

  /** The longest stored phrase at `index`, tried from the longest length down. */
  method FindLongest(segments: seq<Segment>, store: PhraseOverrideStore, index: nat, usable: nat)
    returns (matched: nat, phrase: seq<Char>)
    requires index + usable <= |segments| && store.Valid()
    ensures matched == LongestStored(store.phrases, segments, index, if usable < MAX then usable else MAX)
    ensures matched > 0 ==> phrase == PhraseOver(store.phrases, segments, index, matched) && |phrase| == matched
  {
    hide Lookup, PhraseOver;
    var length := if usable < MAX then usable else MAX;
    ghost var longest := length;
    while length >= MIN
      invariant 0 <= length <= longest
      invariant LongestStored(store.phrases, segments, index, longest) == LongestStored(store.phrases, segments, index, length)
    {
      var found := FindPhrase(segments, store, index, length);
      if found.Some? {
        return length, found.value;
      }
      length := length - 1;
    }
    return 0, [];
  }

  method CountUsable(segments: seq<Segment>, index: nat) returns (usable: nat)
    requires index <= |segments|
    ensures usable == UsableLength(segments, index)
  {
    hide Usable;
    usable := 0;
    while index + usable < |segments| && Usable(segments[index + usable])
      invariant index + usable <= |segments| && UsableLength(segments, index) == usable + UsableLength(segments, index + usable)
    {
      usable := usable + 1;
    }
  }

  ghost predicate PassState(phrases: Phrases, before: seq<Segment>, current: seq<Segment>, done: seq<Range>, index: nat) {
    && index <= |before| && SameShape(before, current) && AllEndBy(done, index)
    && PinnedOver(phrases, before, current, done)
    && Ranges(phrases, before, 0) == done + Ranges(phrases, before, index)
  }

  lemma PassStarts(phrases: Phrases, before: seq<Segment>)
    ensures PassState(phrases, before, before, [], 0)
  {
    hide Ranges, Usable;
    NothingAdded(Ranges(phrases, before, 0));
  }

  lemma {:induction false} PassEnds(phrases: Phrases, before: seq<Segment>, current: seq<Segment>, done: seq<Range>)
    requires PassState(phrases, before, current, done, |before|)
    ensures PinnedOver(phrases, before, current, Ranges(phrases, before, 0))
  {
    hide Ranges, PinnedOver, SameShape;
    RangesStep(phrases, before, |before|);
    NothingAdded(done);
  }

  lemma PassSkips(phrases: Phrases, before: seq<Segment>, current: seq<Segment>, done: seq<Range>, index: nat)
    requires PassState(phrases, before, current, done, index) && index < |before| == |current| && MatchAt(phrases, current, index) == 0
    ensures PassState(phrases, before, current, done, index + 1)
  {
    hide Ranges, PinnedOver, SameShape, MatchAt;
    SameMatch(phrases, before, current, index);
    RangesStep(phrases, before, index);
  }

  lemma PassPins(phrases: Phrases, before: seq<Segment>, current: seq<Segment>, done: seq<Range>, index: nat)
    requires PassState(phrases, before, current, done, index) && index < |before| == |current| && WellFormed(phrases)
    requires MatchAt(phrases, current, index) > 0
    ensures var n := MatchAt(phrases, current, index);
      var phrase := PhraseOver(phrases, current, index, n);
      && |phrase| == n && (forall i :: index <= i < index + n ==> Usable(current[i]))
      && PassState(phrases, before, PinnedSegments(current, index, phrase), done + [Range(index, n)], index + n)
  {
    hide Ranges, PinnedOver, SameShape, MatchAt, WellFormed, PhraseOver, PinnedTo, Usable, ReadingsOf, Lookup, UsableLength, LongestStored;
    var n := MatchAt(phrases, current, index);
    MatchIsLongest(phrases, current, index);
    PhraseOverFills(phrases, current, index, n);
    SamePhraseOver(phrases, before, current, index, n);
    SameMatch(phrases, before, current, index);
    RangesStep(phrases, before, index);
    var phrase := PhraseOver(phrases, current, index, n);
    PinnedShape(current, index, phrase);
    ShapesChain(before, current, PinnedSegments(current, index, phrase));
    PinOneMore(phrases, before, current, done, Range(index, n));
    Associative(done, [Range(index, n)], Ranges(phrases, before, index + n));
  }

  lemma ShapesChain(a: seq<Segment>, b: seq<Segment>, c: seq<Segment>)
    requires SameShape(a, b) && SameShape(b, c)
    ensures SameShape(a, c)
  {
    hide Usable;
  }

  /** One position of the pass: nothing is stored there, or the longest match is pinned, which cannot fail. */
  lemma PassStep(phrases: Phrases, before: seq<Segment>, b: Composition, done: seq<Range>, index: nat)
    requires b.Valid() && WellFormed(phrases) && index < |before| == |b.segments| && PassState(phrases, before, b.segments, done, index)
    ensures var n := MatchAt(phrases, b.segments, index);
      && (n == 0 ==> PassState(phrases, before, b.segments, done, index + 1))
      && (n > 0 ==>
            var phrase := PhraseOver(phrases, b.segments, index, n);
            var r := ApplyPhrase(b, index, phrase);
            && |phrase| == n && r.1 && Follows(b, r.0) && |r.0.segments| == |before|
            && r.0.caret == b.caret && r.0.anchor == b.anchor && r.0.lastEdited == b.lastEdited
            && PassState(phrases, before, r.0.segments, done + [Range(index, n)], index + n))
  {
    hide PassState, MatchAt, WellFormed, PhraseOver, ApplyPhrase, Usable;
    var n := MatchAt(phrases, b.segments, index);
    if n == 0 {
      PassSkips(phrases, before, b.segments, done, index);
    } else {
      PassPins(phrases, before, b.segments, done, index);
      PhraseApplies(b, index, PhraseOver(phrases, b.segments, index, n));
    }
  }

  /** Pins the stored phrases from left to right, longest first. */
  method PinPhrases(buffer: CompositionBuffer, store: PhraseOverrideStore)
    requires buffer.Valid() && store.Valid()
    modifies buffer
    ensures buffer.Valid() && Follows(old(buffer.Value()), buffer.Value())
    ensures buffer.caret == old(buffer.caret) && buffer.anchor == old(buffer.anchor) && buffer.lastEdited == old(buffer.lastEdited)
    ensures PinnedOver(store.phrases, old(buffer.segments), buffer.segments, Ranges(store.phrases, old(buffer.segments), 0))
  {
    hide PassState, LongestStored, UsableLength, PhraseOver, ApplyPhrase, PinnedOver, Ranges, WellFormed;
    ghost var before := buffer.segments;
    ghost var done: seq<Range> := [];
    var index := 0;
    PassStarts(store.phrases, before);
    while index < |buffer.segments|
      invariant buffer.Valid() && Follows(old(buffer.Value()), buffer.Value()) && store.Valid() && unchanged(store)
      invariant buffer.caret == old(buffer.caret) && buffer.anchor == old(buffer.anchor) && buffer.lastEdited == old(buffer.lastEdited)
      invariant |buffer.segments| == |before| && index <= |before|
      invariant PassState(store.phrases, before, buffer.segments, done, index)
      decreases |before| - index
    {
      var usable := CountUsable(buffer.segments, index);
      var matched, phrase := FindLongest(buffer.segments, store, index, usable);
      PassStep(store.phrases, before, buffer.Value(), done, index);
      if matched > 0 {
        var _ := buffer.ApplyPhraseOverride(index, phrase);
        done := done + [Range(index, matched)];
      }
      index := index + if matched != 0 then matched else 1;
    }
    PassEnds(store.phrases, before, buffer.segments, done);
  }

  /** What one pass does: the leftmost-longest ranges show their phrases, every other segment is only released
      from a pin that no longer reads as a stored phrase. */
  ghost predicate Overridden(phrases: Phrases, before: seq<Segment>, after: seq<Segment>) {
    var ranges := Ranges(phrases, before, 0);
    && |after| == |before| && LeftmostLongest(phrases, before, 0, ranges)
    && (forall k :: 0 <= k < |ranges| ==> RangePinned(phrases, before, after, ranges[k]))
    && (forall i :: 0 <= i < |before| && Uncovered(ranges, i) ==> after[i] == Checked(phrases, before, i))
  }

  lemma {:induction false} PassesCombine(phrases: Phrases, before: seq<Segment>, checked: seq<Segment>, after: seq<Segment>)
    requires CheckedBelow(phrases, before, checked, |before|)
    requires PinnedOver(phrases, checked, after, Ranges(phrases, checked, 0))
    ensures Overridden(phrases, before, after)
  {
    hide Ranges, LeftmostLongest, Usable, PhraseOver, Checked, SameShape;
    CheckedShape(phrases, before, checked);
    assert |checked| == |before|;
    SameRanges(phrases, before, checked, 0);
    RangesAreLeftmostLongest(phrases, before, 0);
    var ranges := Ranges(phrases, before, 0);
    forall k | 0 <= k < |ranges| ensures RangePinned(phrases, before, after, ranges[k]) {
      RangeCombines(phrases, before, checked, after, ranges[k]);
    }
  }

  lemma RangeCombines(phrases: Phrases, before: seq<Segment>, checked: seq<Segment>, after: seq<Segment>, r: Range)
    requires CheckedBelow(phrases, before, checked, |before|) && SameShape(before, checked)
    requires RangePinned(phrases, checked, after, r)
    ensures RangePinned(phrases, before, after, r)
  {
    hide Usable, PhraseOver, InHoldingRun, Without;
    SamePhraseOver(phrases, before, checked, r.start, r.length);
  }

  /** One pass over the composition. */
  method ApplyPhraseOverrides(buffer: CompositionBuffer, store: PhraseOverrideStore)
    requires buffer.Valid() && store.Valid()
    modifies buffer
    ensures buffer.Valid() && Follows(old(buffer.Value()), buffer.Value())
    ensures buffer.caret == old(buffer.caret) && buffer.anchor == old(buffer.anchor) && buffer.lastEdited == old(buffer.lastEdited)
    ensures Overridden(store.phrases, old(buffer.segments), buffer.segments)
  {
    hide CheckedBelow, PinnedOver, Ranges, Overridden, WellFormed;
    ghost var before := buffer.segments;
    CheckPins(buffer, store);
    ghost var checked := buffer.segments;
    PinPhrases(buffer, store);
    CheckedLength(store.phrases, before, checked);
    PassesCombine(store.phrases, before, checked, buffer.segments);
  }

  lemma CheckedLength(phrases: Phrases, before: seq<Segment>, checked: seq<Segment>)
    requires CheckedBelow(phrases, before, checked, |checked|)
    ensures |checked| == |before|
  {
  }

  /** Explicit choices, literals and unfinished readings are never touched. */
  lemma ChoicesStay(phrases: Phrases, before: seq<Segment>, after: seq<Segment>, i: nat)
    requires Overridden(phrases, before, after) && i < |before| && before[i].Sound()
    requires before[i].ExplicitlyChosen() || before[i].literal != 0 || before[i].Unfinished()
    ensures after[i] == before[i]
  {
    hide Ranges, Lookup, InHoldingRun, RangePinned;
    var ranges := Ranges(phrases, before, 0);
    assert !Usable(before[i]) && !before[i].phraseOverrideChosen;
    forall k | 0 <= k < |ranges| ensures !Covers(ranges[k], i) {
      assert Longest(phrases, before, ranges[k]);
      assert StoredOver(phrases, before, ranges[k].start, ranges[k].length);
    }
    assert Uncovered(ranges, i);
  }

  // ----- what a range shows -----

  function Shown(phrase: seq<Char>): Text {
    if phrase == [] then [] else (if phrase[0] == 0 then [] else Units(phrase[0])) + Shown(phrase[1..])
  }

  lemma {:induction false} PinnedRenders(segments: seq<Segment>, pinned: seq<Segment>, phrase: seq<Char>)
    requires |segments| == |pinned| == |phrase|
    requires forall i :: 0 <= i < |phrase| ==> segments[i].Complete() && segments[i].literal == 0 && pinned[i] == PinnedTo(segments[i], phrase[i])
    ensures Rendered(pinned) == Shown(phrase)
  {
    hide Without, Units;
    if phrase != [] {
      PinnedRenders(segments[1..], pinned[1..], phrase[1..]);
      assert pinned[0].RenderedText() == if phrase[0] == 0 then [] else Units(phrase[0]);
    }
  }

  lemma {:induction false} ShownScalars(scalars: seq<Utf.Scalar>)
    ensures |Shown(Chars(scalars))| <= |Utf.Utf16(scalars)|
    ensures 0 !in Utf.Utf16(scalars) ==> Shown(Chars(scalars)) == Utf.Utf16(scalars)
    ensures 0 in Utf.Utf16(scalars) ==> |Shown(Chars(scalars))| < |Utf.Utf16(scalars)|
  {
    if scalars != [] {
      ShownScalars(scalars[1..]);
      assert Chars(scalars)[1..] == Chars(scalars[1..]);
      var head, tail := Utf.EncodeUtf16(scalars[0]), Utf.Utf16(scalars[1..]);
      assert scalars[0] != 0 ==> Units(scalars[0]) == head;
      assert 0 in head <==> scalars[0] == 0;
      assert 0 in head + tail <==> 0 in head || 0 in tail;
    }
  }

  /** A matched range renders exactly its stored phrase, unless the phrase holds a null character. */
  lemma RangeShowsPhrase(phrases: Phrases, before: seq<Segment>, after: seq<Segment>, r: Range)
    requires WellFormed(phrases) && StoredOver(phrases, before, r.start, r.length) && RangePinned(phrases, before, after, r)
    ensures var phrase := Lookup(phrases, ReadingsOf(before, r.start, r.length)).value;
      Rendered(after[r.start..r.start + r.length]) == phrase <==> 0 !in phrase
  {
    hide Rendered, Lookup, WellFormed, PinnedTo, Shown, Utf.Utf16, Utf.Utf16ToUtf8, Utf.DecodeUtf8;
    var scalars := PhraseFillsRange(phrases, ReadingsOf(before, r.start, r.length));
    PinnedRenders(before[r.start..r.start + r.length], after[r.start..r.start + r.length], Chars(scalars));
    ShownScalars(scalars);
  }
}
