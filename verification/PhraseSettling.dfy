/** What further passes of the phrase overrides do (engine/src/input/input_processor.cpp:1435-1504). A pass is not
    idempotent: where a new match overlaps an old pinned run in part, the rest of the run keeps its pins for now. */
module PhraseSettling {
  import opened Compositions
  import opened PhraseOverrides
  import opened PhrasePinning

  /** Every pin outside the matched ranges belongs to a run that reads as a stored phrase. */
  ghost predicate NoLeftover(phrases: Phrases, segments: seq<Segment>) {
    forall i :: 0 <= i < |segments| && segments[i].phraseOverrideChosen && Uncovered(Ranges(phrases, segments, 0), i) ==>
      InHoldingRun(phrases, segments, i)
  }

  // ----- one pass -----

  lemma Covering(ranges: seq<Range>, i: nat) returns (k: nat)
    requires !Uncovered(ranges, i)
    ensures k < |ranges| && Covers(ranges[k], i)
  {
    k :| 0 <= k < |ranges| && Covers(ranges[k], i);
  }

  /** A covered segment is usable and pinned to its character of the phrase. */
  lemma {:induction false} PinnedAt(phrases: Phrases, before: seq<Segment>, after: seq<Segment>, k: nat, i: nat)
    requires Overridden(phrases, before, after) && k < |Ranges(phrases, before, 0)| && Covers(Ranges(phrases, before, 0)[k], i)
    ensures var r := Ranges(phrases, before, 0)[k];
      && r.start + r.length <= |before| == |after| && i < |before| && Usable(before[i])
      && |PhraseOver(phrases, before, r.start, r.length)| == r.length
      && after[i] == PinnedTo(before[i], PhraseOver(phrases, before, r.start, r.length)[i - r.start])
  {
    hide *;
    RangeAt(phrases, before, after, k);
    InRange(phrases, before, after, Ranges(phrases, before, 0)[k], i);
  }

  lemma {:induction false} RangeAt(phrases: Phrases, before: seq<Segment>, after: seq<Segment>, k: nat)
    requires Overridden(phrases, before, after) && k < |Ranges(phrases, before, 0)|
    ensures StoredOver(phrases, before, Ranges(phrases, before, 0)[k].start, Ranges(phrases, before, 0)[k].length)
    ensures RangePinned(phrases, before, after, Ranges(phrases, before, 0)[k])
  {
    hide Ranges, StoredOver, RangePinned, Checked, Uncovered;
  }

  lemma InRange(phrases: Phrases, before: seq<Segment>, after: seq<Segment>, r: Range, i: nat)
    requires StoredOver(phrases, before, r.start, r.length) && RangePinned(phrases, before, after, r) && Covers(r, i)
    ensures r.start + r.length <= |before| == |after| && i < |before| && Usable(before[i])
    ensures |PhraseOver(phrases, before, r.start, r.length)| == r.length
    ensures after[i] == PinnedTo(before[i], PhraseOver(phrases, before, r.start, r.length)[i - r.start])
  {
    hide Usable, PhraseOver, PinnedTo, Lookup, ReadingsOf;
    assert after[r.start + (i - r.start)] == PinnedTo(before[r.start + (i - r.start)], PhraseOver(phrases, before, r.start, r.length)[i - r.start]);
  }

  lemma PinnedToShape(s: Segment, c: Char)
    requires Usable(s)
    ensures Usable(PinnedTo(s, c)) && PinnedTo(s, c).Reading() == s.Reading() && PinnedTo(s, c).phraseOverrideChosen
    ensures PinnedTo(PinnedTo(s, c), c) == PinnedTo(s, c)
  {
    hide Without;
  }

  lemma UnpinnedShape(s: Segment)
    ensures Usable(Unpinned(s)) == Usable(s) && Unpinned(s).Reading() == s.Reading() && !Unpinned(s).phraseOverrideChosen
    ensures Unpinned(s) == s <==> !s.phraseOverrideChosen
  {
  }

  /** An uncovered segment keeps a pin exactly when it has one in a run that holds. */
  lemma {:induction false} CheckedAt(phrases: Phrases, before: seq<Segment>, after: seq<Segment>, i: nat)
    requires Overridden(phrases, before, after) && i < |before| && Uncovered(Ranges(phrases, before, 0), i)
    ensures |after| == |before| && after[i] == if InHoldingRun(phrases, before, i) then before[i] else Unpinned(before[i])
    ensures after[i].phraseOverrideChosen <==> InHoldingRun(phrases, before, i)
    ensures after[i] == before[i] <==> !before[i].phraseOverrideChosen || InHoldingRun(phrases, before, i)
    ensures Usable(after[i]) == Usable(before[i]) && after[i].Reading() == before[i].Reading()
  {
    hide Ranges, Usable, PinnedTo, Lookup, RunHolds, Unpinned;
    UnpinnedShape(before[i]);
  }

  /** A pass leaves what phrases are matched by, so the next pass matches the same ranges. */
  lemma {:induction false} SameMatches(phrases: Phrases, before: seq<Segment>, after: seq<Segment>)
    requires Overridden(phrases, before, after)
    ensures SameShape(before, after) && Ranges(phrases, after, 0) == Ranges(phrases, before, 0)
  {
    hide Ranges, Usable, PinnedTo, Overridden, Uncovered, InHoldingRun, PhraseOver, Segment.Reading;
    OverriddenLength(phrases, before, after);
    forall i | 0 <= i < |before| ensures Usable(after[i]) == Usable(before[i]) && after[i].Reading() == before[i].Reading() {
      if Uncovered(Ranges(phrases, before, 0), i) {
        CheckedAt(phrases, before, after, i);
      } else {
        var k := Covering(Ranges(phrases, before, 0), i);
        PinnedAt(phrases, before, after, k, i);
        var r := Ranges(phrases, before, 0)[k];
        PinnedToShape(before[i], PhraseOver(phrases, before, r.start, r.length)[i - r.start]);
      }
    }
    SameRanges(phrases, before, after, 0);
  }

  lemma OverriddenLength(phrases: Phrases, before: seq<Segment>, after: seq<Segment>)
    requires Overridden(phrases, before, after)
    ensures |after| == |before|
  {
  }

  /** The matched ranges show their phrases already. */
  ghost predicate AlreadyPinned(phrases: Phrases, segments: seq<Segment>) {
    var ranges := Ranges(phrases, segments, 0);
    forall k :: 0 <= k < |ranges| ==> RangePinned(phrases, segments, segments, ranges[k])
  }

  /** A pass changes nothing exactly when its ranges are pinned already and there is no leftover pin. */
  lemma PassIdle(phrases: Phrases, before: seq<Segment>, after: seq<Segment>)
    requires Overridden(phrases, before, after)
    ensures after == before <==> AlreadyPinned(phrases, before) && NoLeftover(phrases, before)
  {
    hide *;
    if after == before {
      IdleIsSettled(phrases, before);
    }
    if AlreadyPinned(phrases, before) && NoLeftover(phrases, before) {
      OverriddenLength(phrases, before, after);
      forall i | 0 <= i < |before| ensures after[i] == before[i] {
        SettledAt(phrases, before, after, i);
      }
    }
  }

  lemma IdleIsSettled(phrases: Phrases, segments: seq<Segment>)
    requires Overridden(phrases, segments, segments)
    ensures AlreadyPinned(phrases, segments) && NoLeftover(phrases, segments)
  {
    hide Ranges, Overridden, Uncovered, InHoldingRun, RangePinned;
    RangesPinned(phrases, segments);
    forall i | 0 <= i < |segments| && segments[i].phraseOverrideChosen && Uncovered(Ranges(phrases, segments, 0), i)
      ensures InHoldingRun(phrases, segments, i)
    {
      CheckedAt(phrases, segments, segments, i);
    }
  }

  lemma {:induction false} RangesPinned(phrases: Phrases, segments: seq<Segment>)
    requires Overridden(phrases, segments, segments)
    ensures AlreadyPinned(phrases, segments)
  {
    hide Ranges, RangePinned, LeftmostLongest, Checked;
  }

  lemma SettledAt(phrases: Phrases, before: seq<Segment>, after: seq<Segment>, i: nat)
    requires Overridden(phrases, before, after) && AlreadyPinned(phrases, before) && NoLeftover(phrases, before) && i < |before|
    ensures i < |after| && after[i] == before[i]
  {
    hide Ranges, Overridden, Uncovered, InHoldingRun, RangePinned, PinnedTo, PhraseOver, Usable;
    var ranges := Ranges(phrases, before, 0);
    if Uncovered(ranges, i) {
      CheckedAt(phrases, before, after, i);
    } else {
      var k := Covering(ranges, i);
      PinnedAt(phrases, before, after, k, i);
      AlreadyAt(phrases, before, ranges[k], i);
    }
  }

  lemma AlreadyAt(phrases: Phrases, segments: seq<Segment>, r: Range, i: nat)
    requires RangePinned(phrases, segments, segments, r) && Covers(r, i)
    ensures r.start + r.length <= |segments| && |PhraseOver(phrases, segments, r.start, r.length)| == r.length
    ensures segments[i] == PinnedTo(segments[i], PhraseOver(phrases, segments, r.start, r.length)[i - r.start])
  {
    hide PhraseOver, PinnedTo;
    assert segments[r.start + (i - r.start)] == segments[i];
  }

  // ----- the next pass -----

  /** What a pass pinned stays as it is. */
  lemma {:induction false} CoveredStays(phrases: Phrases, before: seq<Segment>, after: seq<Segment>, again: seq<Segment>, i: nat)
    requires Overridden(phrases, before, after) && Overridden(phrases, after, again)
    requires i < |before| && !Uncovered(Ranges(phrases, before, 0), i)
    ensures |after| == |again| == |before| && again[i] == after[i] && after[i].phraseOverrideChosen
  {
    hide *;
    SameMatches(phrases, before, after);
    var ranges := Ranges(phrases, before, 0);
    var k := Covering(ranges, i);
    Repinned(phrases, before, after, again, ranges, k, i);
    OverriddenLength(phrases, before, after);
    OverriddenLength(phrases, after, again);
  }

  lemma {:induction false} Repinned(phrases: Phrases, before: seq<Segment>, after: seq<Segment>, again: seq<Segment>, ranges: seq<Range>, k: nat, i: nat)
    requires Overridden(phrases, before, after) && Overridden(phrases, after, again) && SameShape(before, after)
    requires ranges == Ranges(phrases, before, 0) == Ranges(phrases, after, 0) && k < |ranges| && Covers(ranges[k], i)
    ensures i < |after| && i < |again| && again[i] == after[i] && after[i].phraseOverrideChosen
  {
    hide Ranges, Usable, PinnedTo, Overridden, PhraseOver, SameShape;
    var r := ranges[k];
    PinnedAt(phrases, before, after, k, i);
    PinnedAt(phrases, after, again, k, i);
    SamePhraseOver(phrases, before, after, r.start, r.length);
    PinnedToShape(before[i], PhraseOver(phrases, before, r.start, r.length)[i - r.start]);
  }

  /** A second pass changes nothing exactly when the first one left no pin that is neither matched nor part of a
      run that reads as a stored phrase. */
  lemma SecondPassIdle(phrases: Phrases, before: seq<Segment>, after: seq<Segment>, again: seq<Segment>)
    requires Overridden(phrases, before, after) && Overridden(phrases, after, again)
    ensures again == after <==> NoLeftover(phrases, after)
  {
    hide Ranges, Overridden, Uncovered, InHoldingRun, SameShape;
    SameMatches(phrases, before, after);
    OverriddenLength(phrases, before, after);
    OverriddenLength(phrases, after, again);
    forall i | 0 <= i < |after|
      ensures again[i] == after[i] <==>
        !(after[i].phraseOverrideChosen && Uncovered(Ranges(phrases, after, 0), i)) || InHoldingRun(phrases, after, i)
    {
      if Uncovered(Ranges(phrases, after, 0), i) {
        CheckedAt(phrases, after, again, i);
      } else {
        CoveredStays(phrases, before, after, again, i);
      }
    }
  }

  /** A run that holds is kept whole by the next pass, and stays maximal. */
  lemma HoldingRunStays(phrases: Phrases, before: seq<Segment>, after: seq<Segment>, again: seq<Segment>, start: nat, end: nat)
    requires Overridden(phrases, before, after) && Overridden(phrases, after, again)
    requires PinnedRun(after, start, end) && RunHolds(phrases, after, start, end)
    ensures PinnedRun(again, start, end) && RunHolds(phrases, again, start, end)
  {
    hide Ranges, Overridden, Uncovered, SameShape, RunHolds, InHoldingRun;
    OverriddenLength(phrases, after, again);
    forall i | start <= i < end ensures again[i].phraseOverrideChosen {
      PinsAfter(phrases, before, after, again, i);
      RunIsUnique(phrases, after, start, end, i);
    }
    if start > 0 {
      PinsAfter(phrases, before, after, again, start - 1);
    }
    if end < |after| {
      PinsAfter(phrases, before, after, again, end);
    }
    SameMatches(phrases, after, again);
    SameRunHolds(phrases, after, again, start, end);
  }

  lemma SameRunHolds(phrases: Phrases, a: seq<Segment>, b: seq<Segment>, start: nat, end: nat)
    requires SameShape(a, b) && start <= end <= |a| && RunHolds(phrases, a, start, end)
    ensures RunHolds(phrases, b, start, end)
  {
    hide Usable, Lookup, Segment.Reading;
    SameReadingsOf(a, b, start, end - start);
  }

  /** A pass over the result of another neither adds pins nor drops those of runs that hold. */
  lemma {:induction false} PinsAfter(phrases: Phrases, before: seq<Segment>, after: seq<Segment>, again: seq<Segment>, i: nat)
    requires Overridden(phrases, before, after) && Overridden(phrases, after, again) && i < |after|
    ensures i < |again|
    ensures again[i].phraseOverrideChosen ==> after[i].phraseOverrideChosen
    ensures InHoldingRun(phrases, after, i) ==> again[i].phraseOverrideChosen
    ensures again[i].phraseOverrideChosen && Uncovered(Ranges(phrases, after, 0), i) ==> InHoldingRun(phrases, after, i)
  {
    hide Ranges, Overridden, Uncovered, SameShape, InHoldingRun;
    OverriddenLength(phrases, before, after);
    OverriddenLength(phrases, after, again);
    SameMatches(phrases, before, after);
    if Uncovered(Ranges(phrases, after, 0), i) {
      CheckedAt(phrases, after, again, i);
      if InHoldingRun(phrases, after, i) {
        HoldingIsPinned(phrases, after, i);
      }
    } else {
      CoveredStays(phrases, before, after, again, i);
    }
  }

  lemma HoldingIsPinned(phrases: Phrases, segments: seq<Segment>, i: nat)
    requires i < |segments| && InHoldingRun(phrases, segments, i)
    ensures segments[i].phraseOverrideChosen
  {
    hide RunHolds;
  }

  /** After two passes everything has settled: a third changes nothing. */
  lemma TwoPassesSettle(phrases: Phrases, before: seq<Segment>, after: seq<Segment>, again: seq<Segment>, third: seq<Segment>)
    requires Overridden(phrases, before, after) && Overridden(phrases, after, again) && Overridden(phrases, again, third)
    ensures third == again
  {
    hide Ranges, Overridden, Uncovered, SameShape, InHoldingRun;
    SameMatches(phrases, after, again);
    OverriddenLength(phrases, after, again);
    forall i | 0 <= i < |again| && again[i].phraseOverrideChosen && Uncovered(Ranges(phrases, again, 0), i)
      ensures InHoldingRun(phrases, again, i)
    {
      PinsAfter(phrases, before, after, again, i);
      HoldsAgain(phrases, before, after, again, i);
    }
    SecondPassIdle(phrases, after, again, third);
  }

  lemma HoldsAgain(phrases: Phrases, before: seq<Segment>, after: seq<Segment>, again: seq<Segment>, i: nat)
    requires Overridden(phrases, before, after) && Overridden(phrases, after, again) && InHoldingRun(phrases, after, i)
    ensures InHoldingRun(phrases, again, i)
  {
    hide Overridden, RunHolds;
    var start: nat, end: nat :| start <= i < end && PinnedRun(after, start, end) && RunHolds(phrases, after, start, end);
    HoldingRunStays(phrases, before, after, again, start, end);
  }
}
