/** Applying a decoded path to the composition (engine/src/input/input_processor.cpp): what the preedit showed
    is what the composition becomes. */
module MixedApply {
  import opened Sequences
  import opened Utf
  import opened Keymap
  import opened Compositions
  import opened CompositionBuffers
  import opened MixedPaths
  import opened MixedDecoder
  import Runs = CompositionRuns
  import Replay

  // ----- apply_mixed_path on values -----

  function AddLiterals(b: Composition, raw: Text): (r: Composition)
    requires b.caret <= |b.segments|
    ensures r.caret <= |r.segments|
    decreases |raw|
  {
    if raw == [] then b else AddLiterals(AddLiteral(b, raw[0]).0, raw[1..])
  }

  function ApplySegment(b: Composition, s: MixedSegment, choice: nat, layout: Layout, moveCursor: bool): (r: (Composition, bool))
    requires b.caret <= |b.segments|
    ensures r.1 && s.kind != Bopomofo ==> r.0.caret <= |r.0.segments|
  {
    if s.kind == Bopomofo then
      var typed := AddKeys(b, s.bodyKeys, s.toneKey, layout, true);
      if typed.1.None? || !typed.1.value.completed then (b, false)
      else
        var offered := SetCandidates(typed.0, typed.1.value.segmentIndex, s.candidates, true).0;
        if choice >= |s.candidates| then (b, false)
        else SelectCandidate(offered, typed.1.value.segmentIndex, choice, moveCursor)
    else (AddLiterals(b, s.raw), true)
  }

  /** The candidate chosen in segment `k`: the first one, except in the last segment. */
  function Choice(segments: seq<MixedSegment>, k: nat, charIndex: nat): nat {
    if k + 1 == |segments| then charIndex else 0
  }

  /** The first `count` segments applied in order, stopping at the first that fails. */
  function ApplyFirst(b: Composition, segments: seq<MixedSegment>, count: nat, charIndex: nat, layout: Layout, moveCursor: bool)
    : (Composition, bool)
    requires count <= |segments|
  {
    if count == 0 then (b, true)
    else
      var r := ApplyFirst(b, segments, count - 1, charIndex, layout, moveCursor);
      if !r.1 || r.0.caret > |r.0.segments| then (r.0, false)
      else ApplySegment(r.0, segments[count - 1], Choice(segments, count - 1, charIndex), layout, moveCursor)
  }

  // ----- what the path shows, and what the buffer renders -----

  /** The preview text of a segment with the given candidate. */
  function Shown(s: MixedSegment, choice: nat): Text {
    if s.kind == Bopomofo && choice < |s.candidates| then Units(s.candidates[choice]) else s.raw
  }

  function ShownFirst(segments: seq<MixedSegment>, count: nat, charIndex: nat): Text
    requires count <= |segments|
  {
    if count == 0 then []
    else ShownFirst(segments, count - 1, charIndex) + Shown(segments[count - 1], Choice(segments, count - 1, charIndex))
  }

  /** The buffer drops the code point 0, which the preview shows as a unit. */
  function WithoutNul(text: Text): Text {
    if text == [] then [] else (if text[0] == 0 then [] else [text[0]]) + WithoutNul(text[1..])
  }

  function Stored(s: MixedSegment, choice: nat): Text {
    if s.kind == Bopomofo && choice < |s.candidates| then (if s.candidates[choice] == 0 then [] else Units(s.candidates[choice]))
    else WithoutNul(s.raw)
  }

  function StoredFirst(segments: seq<MixedSegment>, count: nat, charIndex: nat): Text
    requires count <= |segments|
  {
    if count == 0 then []
    else StoredFirst(segments, count - 1, charIndex) + Stored(segments[count - 1], Choice(segments, count - 1, charIndex))
  }

  /** Nothing the segment inserts is the code point 0. */
  predicate NulFree(s: MixedSegment, choice: nat) {
    if s.kind == Bopomofo && choice < |s.candidates| then s.candidates[choice] != 0 else 0 !in s.raw
  }

  predicate PathNulFree(segments: seq<MixedSegment>, charIndex: nat) {
    forall k :: 0 <= k < |segments| ==> NulFree(segments[k], Choice(segments, k, charIndex))
  }

  lemma {:induction false} WithoutNulLength(text: Text)
    ensures |WithoutNul(text)| <= |text|
    ensures 0 !in text ==> WithoutNul(text) == text
    ensures 0 in text ==> |WithoutNul(text)| < |text|
  {
    if text != [] {
      WithoutNulLength(text[1..]);
    }
  }

  lemma StoredLength(s: MixedSegment, choice: nat)
    ensures |Stored(s, choice)| <= |Shown(s, choice)|
    ensures NulFree(s, choice) <==> Stored(s, choice) == Shown(s, choice)
    ensures !NulFree(s, choice) ==> |Stored(s, choice)| < |Shown(s, choice)|
  {
    WithoutNulLength(s.raw);
  }

  /** The buffer renders what the path showed exactly when no code point 0 is involved. */
  lemma {:induction false} StoredIsShown(segments: seq<MixedSegment>, count: nat, charIndex: nat)
    requires count <= |segments|
    ensures |StoredFirst(segments, count, charIndex)| <= |ShownFirst(segments, count, charIndex)|
    ensures StoredFirst(segments, count, charIndex) == ShownFirst(segments, count, charIndex) <==>
            forall k :: 0 <= k < count ==> NulFree(segments[k], Choice(segments, k, charIndex))
    ensures (exists k :: 0 <= k < count && !NulFree(segments[k], Choice(segments, k, charIndex))) ==>
            |StoredFirst(segments, count, charIndex)| < |ShownFirst(segments, count, charIndex)|
  {
    hide NulFree, Stored, Shown;
    if count > 0 {
      StoredIsShown(segments, count - 1, charIndex);
      StoredLength(segments[count - 1], Choice(segments, count - 1, charIndex));
    }
  }

  lemma {:induction false} ShownIsRendering(segments: seq<MixedSegment>, count: nat, charIndex: nat)
    requires count <= |segments| && (charIndex == 0 || count < |segments|)
    requires forall k :: 0 <= k < count && segments[k].kind == Bopomofo ==> segments[k].candidates != []
    ensures ShownFirst(segments, count, charIndex) == Rendering(segments[..count])
  {
    if count > 0 {
      ShownIsRendering(segments, count - 1, charIndex);
      assert segments[..count][..count - 1] == segments[..count - 1];
    }
  }

  // ----- one segment -----

  lemma {:induction false} LiteralsAppend(b: Composition, raw: Text)
    requires b.Valid() && b.caret == |b.segments|
    ensures var r := AddLiterals(b, raw);
      && r.Valid() && r.caret == |r.segments|
      && (ReadyForKeys(b) ==> ReadyForKeys(r))
      && Rendered(r.segments) == Rendered(b.segments) + WithoutNul(raw)
    decreases |raw|
  {
    if raw == [] {
      NothingAdded(Rendered(b.segments));
    } else {
      Runs.LiteralFollows(b, raw[0]);
      var c := AddLiteral(b, raw[0]).0;
      LiteralRenders(b, raw[0]);
      LiteralsAppend(c, raw[1..]);
      Associative(Rendered(b.segments), if raw[0] == 0 then [] else [raw[0]], WithoutNul(raw[1..]));
    }
  }

  lemma LiteralRenders(b: Composition, value: Unit)
    requires b.Valid() && b.caret == |b.segments|
    ensures var c := AddLiteral(b, value).0;
      c.caret == |c.segments| && (ReadyForKeys(b) ==> ReadyForKeys(c)) &&
      Rendered(c.segments) == Rendered(b.segments) + if value == 0 then [] else [value]
  {
    if value == 0 {
      NothingAdded(Rendered(b.segments));
    } else {
      Whole(b.segments);
      NothingAdded(b.segments + [NewLiteral(value)]);
      RenderedPush(b.segments, NewLiteral(value));
    }
  }

  /** The finished reading a syllable left, showing one of its candidates. */
  function ChosenSegment(segment: Segment, candidates: seq<Char>, choice: nat): Segment {
    segment.(candidates := candidates, selectedIndex := choice, manuallyChosen := true, phraseOverrideChosen := false)
  }

  lemma SyllableApplies(b: Composition, s: MixedSegment, choice: nat, raw: Text, layout: Layout, spaceTone: bool,
                        lookup: Text -> seq<Char>, moveCursor: bool) returns (segment: Segment)
    requires b.Valid() && ReadyForKeys(b) && IsSyllable(s, raw, layout, spaceTone, lookup)
    ensures Replay.Finished(segment)
    ensures var typed := AddKeys(b, s.bodyKeys, s.toneKey, layout, true);
      typed.1.Some? && typed.1.value.completed && typed.1.value.segmentIndex == |b.segments| &&
      typed.0.segments == b.segments + [segment] && typed.0.caret == |typed.0.segments| && typed.0.Valid()
  {
    hide AddKeys;
    Replay.ReplayFollows(b, s.bodyKeys, s.toneKey, layout, true);
    Replay.CompletedSyllable(s.bodyKeys, s.toneKey, layout, true);
    Runs.AddKeysFollows(b, s.bodyKeys, s.toneKey, layout, true);
    var e := AddKeys(EMPTY, s.bodyKeys, s.toneKey, layout, true);
    assert e.1.Some? && |e.0.segments| == 1;
    segment := e.0.segments[0];
    assert e.0.segments == [segment];
  }

  lemma {:induction false} ChoiceRenders(typed: Composition, front: seq<Segment>, segment: Segment, candidates: seq<Char>, choice: nat, moveCursor: bool)
    requires typed.Valid() && typed.segments == front + [segment] && typed.caret == |typed.segments|
    requires Replay.Finished(segment) && choice < |candidates|
    ensures var offered := SetCandidates(typed, |front|, candidates, true).0;
      var r := SelectCandidate(offered, |front|, choice, moveCursor);
      && r.1 && r.0.Valid() && ReadyForKeys(r.0)
      && Rendered(r.0.segments) == Rendered(front) + (if candidates[choice] == 0 then [] else Units(candidates[choice]))
  {
    hide SetCandidates, SelectCandidate, Rendered;
    ChoiceSegments(typed, front, segment, candidates, choice, moveCursor);
    var chosen := ChosenSegment(segment, candidates, choice);
    var offered := SetCandidates(typed, |front|, candidates, true).0;
    Runs.CandidatesFollow(typed, |front|, candidates, true);
    Runs.ChoiceFollows(offered, |front|, choice, moveCursor);
    RenderedPush(front, chosen);
  }

  lemma ChoiceSegments(typed: Composition, front: seq<Segment>, segment: Segment, candidates: seq<Char>, choice: nat, moveCursor: bool)
    requires typed.segments == front + [segment] && typed.caret == |typed.segments|
    requires !segment.manuallyChosen && choice < |candidates|
    ensures var r := SelectCandidate(SetCandidates(typed, |front|, candidates, true).0, |front|, choice, moveCursor);
      r.1 && r.0.segments == front + [ChosenSegment(segment, candidates, choice)] && r.0.caret == |r.0.segments|
  {
    ReplaceLast(front, segment, segment.(candidates := candidates, selectedIndex := 0, manuallyChosen := false, phraseOverrideChosen := false));
    ReplaceLast(front, segment.(candidates := candidates, selectedIndex := 0, manuallyChosen := false, phraseOverrideChosen := false),
                ChosenSegment(segment, candidates, choice));
  }

  lemma ReplaceLast(front: seq<Segment>, last: Segment, next: Segment)
    ensures (front + [last])[|front|] == last && (front + [last])[|front| := next] == front + [next]
  {
  }

  lemma SegmentApplies(b: Composition, s: MixedSegment, choice: nat, raw: Text, layout: Layout, spaceTone: bool,
                       lookup: Text -> seq<Char>, moveCursor: bool)
    requires b.Valid() && ReadyForKeys(b) && IsEdge(s, raw, layout, spaceTone, lookup)
    requires s.kind == Bopomofo ==> choice < |s.candidates|
    ensures var r := ApplySegment(b, s, choice, layout, moveCursor);
      r.1 && r.0.Valid() && ReadyForKeys(r.0) && Rendered(r.0.segments) == Rendered(b.segments) + Stored(s, choice)
  {
    hide AddKeys, SelectCandidate, SetCandidates, AddLiterals, IsSyllable, Replay.Finished;
    if s.kind == Bopomofo {
      var segment := SyllableApplies(b, s, choice, raw, layout, spaceTone, lookup, moveCursor);
      var typed := AddKeys(b, s.bodyKeys, s.toneKey, layout, true);
      ChoiceRenders(typed.0, b.segments, segment, s.candidates, choice, moveCursor);
    } else {
      LiteralsAppend(b, s.raw);
    }
  }

  // ----- the whole path -----

  /** The chosen candidate exists: only a last Bopomofo segment has more than the first. */
  predicate ChoiceExists(segments: seq<MixedSegment>, charIndex: nat) {
    segments != [] && segments[|segments| - 1].kind == Bopomofo ==> charIndex < |segments[|segments| - 1].candidates|
  }

  lemma FirstStep(b: Composition, segments: seq<MixedSegment>, count: nat, charIndex: nat, layout: Layout, moveCursor: bool)
    requires count <= |segments|
    ensures count == 0 ==> ApplyFirst(b, segments, 0, charIndex, layout, moveCursor) == (b, true) && StoredFirst(segments, 0, charIndex) == []
    ensures count > 0 ==>
      var r := ApplyFirst(b, segments, count - 1, charIndex, layout, moveCursor);
      var choice := Choice(segments, count - 1, charIndex);
      && StoredFirst(segments, count, charIndex) == StoredFirst(segments, count - 1, charIndex) + Stored(segments[count - 1], choice)
      && (r.1 && r.0.caret <= |r.0.segments| ==>
            ApplyFirst(b, segments, count, charIndex, layout, moveCursor) == ApplySegment(r.0, segments[count - 1], choice, layout, moveCursor))
  {
    hide ApplySegment, Stored;
  }

  lemma {:induction false} PathApplies(b: Composition, segments: seq<MixedSegment>, count: nat, charIndex: nat, raw: Text, layout: Layout,
                                       spaceTone: bool, lookup: Text -> seq<Char>, moveCursor: bool)
    requires b.Valid() && ReadyForKeys(b) && count <= |segments| && ChoiceExists(segments, charIndex)
    requires forall k :: 0 <= k < |segments| ==> IsEdge(segments[k], raw, layout, spaceTone, lookup)
    ensures var r := ApplyFirst(b, segments, count, charIndex, layout, moveCursor);
      r.1 && r.0.Valid() && ReadyForKeys(r.0) &&
      Rendered(r.0.segments) == Rendered(b.segments) + StoredFirst(segments, count, charIndex)
  {
    hide ApplyFirst, StoredFirst, ApplySegment, Stored, IsEdge, Rendered, ReadyForKeys;
    FirstStep(b, segments, count, charIndex, layout, moveCursor);
    if count == 0 {
      NothingAdded(Rendered(b.segments));
    } else {
      PathApplies(b, segments, count - 1, charIndex, raw, layout, spaceTone, lookup, moveCursor);
      var r := ApplyFirst(b, segments, count - 1, charIndex, layout, moveCursor);
      var s, choice := segments[count - 1], Choice(segments, count - 1, charIndex);
      CandidatesExist(segments, raw, layout, spaceTone, lookup);
      SegmentApplies(r.0, s, choice, raw, layout, spaceTone, lookup, moveCursor);
      Associative(Rendered(b.segments), StoredFirst(segments, count - 1, charIndex), Stored(s, choice));
    }
  }

  /** Choosing a candidate of a decoded path, at the end of a settled composition, always succeeds; the
      composition then renders as before followed by what was shown, exactly when no code point 0 is shown. */
  lemma {:induction false} PreviewIsResult(b: Composition, path: MixedPath, charIndex: nat, raw: Text, layout: Layout, spaceTone: bool,
                        lookup: Text -> seq<Char>, moveCursor: bool)
    requires b.Valid() && ReadyForKeys(b) && PathOf(path, raw, layout, spaceTone, lookup) && ChoiceExists(path.segments, charIndex)
    ensures var r := ApplyFirst(b, path.segments, |path.segments|, charIndex, layout, moveCursor);
      var shown := ShownFirst(path.segments, |path.segments|, charIndex);
      && r.1 && r.0.Valid() && ReadyForKeys(r.0)
      && (Rendered(r.0.segments) == Rendered(b.segments) + shown <==> PathNulFree(path.segments, charIndex))
      && (charIndex == 0 ==> shown == path.rendered)
  {
    hide IsEdge, Rendered, ReadyForKeys, Stored, Shown, NulFree;
    var segments := path.segments;
    forall k | 0 <= k < |segments| ensures IsEdge(segments[k], raw, layout, spaceTone, lookup) {
      assert segments[k] in segments;
    }
    PathApplies(b, segments, |segments|, charIndex, raw, layout, spaceTone, lookup, moveCursor);
    StoredIsShown(segments, |segments|, charIndex);
    var stored, shown := StoredFirst(segments, |segments|, charIndex), ShownFirst(segments, |segments|, charIndex);
    SameTail(Rendered(b.segments), stored, shown);
    if charIndex == 0 {
      CandidatesExist(segments, raw, layout, spaceTone, lookup);
      ShownIsRendering(segments, |segments|, 0);
      Whole(segments);
    }
  }

  lemma CandidatesExist(segments: seq<MixedSegment>, raw: Text, layout: Layout, spaceTone: bool, lookup: Text -> seq<Char>)
    requires forall k :: 0 <= k < |segments| ==> IsEdge(segments[k], raw, layout, spaceTone, lookup)
    ensures forall k :: 0 <= k < |segments| && segments[k].kind == Bopomofo ==> segments[k].candidates != []
  {
    hide ReplayedReading;
    forall k | 0 <= k < |segments| && segments[k].kind == Bopomofo ensures segments[k].candidates != [] {
      assert IsEdge(segments[k], raw, layout, spaceTone, lookup);
    }
  }

  lemma SameTail(front: Text, a: Text, b: Text)
    ensures front + a == front + b <==> a == b
  {
    Parts(front, a);
    Parts(front, b);
  }
}
