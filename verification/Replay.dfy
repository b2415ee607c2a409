/** Typing a syllable does the same to every settled composition: it appends what it would make of an empty one. */
module Replay {
  import opened Sequences
  import opened Syllables
  import opened Keymap
  import opened Compositions
  import opened CompositionRuns

  /** `c` is `base` followed by everything in `s`, both with the caret at the end. */
  ghost predicate Shifted(base: seq<Segment>, c: Composition, s: Composition) {
    && c.segments == base + s.segments
    && c.caret == |c.segments| && s.caret == |s.segments|
    && (s.segments == [] ==> ReadyForKeys(c))
  }

  lemma SameActive(base: seq<Segment>, c: Composition, s: Composition)
    requires Shifted(base, c, s)
    ensures ActiveBeforeCaret(c) == ActiveBeforeCaret(s) && ActiveSyllable(c) == ActiveSyllable(s)
  {
    if s.segments != [] {
      assert c.segments[c.caret - 1] == s.segments[s.caret - 1];
    }
  }

  lemma TypedFollows(base: seq<Segment>, c: Composition, s: Composition, status: KeyStatus, segment: Segment, natural: bool)
    requires Shifted(base, c, s)
    ensures var rc, rs := AddTyped(c, status, segment, natural), AddTyped(s, status, segment, natural);
      && Shifted(base, rc.0, rs.0)
      && rc.1.Some? == rs.1.Some?
      && (rs.1.Some? ==> rc.1.value == rs.1.value.(segmentIndex := |base| + rs.1.value.segmentIndex))
  {
    SameActive(base, c, s);
    if status != Rejected {
      if ActiveBeforeCaret(s) {
        assert c.segments[c.caret - 1 := segment] == base + s.segments[s.caret - 1 := segment];
      } else {
        Whole(c.segments);
        Whole(s.segments);
        NothingAdded(c.segments + [segment]);
        NothingAdded(s.segments + [segment]);
        Associative(base, s.segments, [segment]);
      }
    }
  }

  lemma KeyFollows(base: seq<Segment>, c: Composition, s: Composition, key: Key, layout: Layout)
    requires Shifted(base, c, s)
    ensures var rc, rs := AddKey(c, key, layout, true), AddKey(s, key, layout, true);
      && Shifted(base, rc.0, rs.0)
      && rc.1.Some? == rs.1.Some?
      && (rs.1.Some? ==> rc.1.value == rs.1.value.(segmentIndex := |base| + rs.1.value.segmentIndex))
  {
    SameActive(base, c, s);
    var before := ActiveSyllable(s);
    hide StatusAfter, TypedSegment, Natural, AddTyped, Shifted;
    TypedFollows(base, c, s, StatusAfter(before, layout, key, true), TypedSegment(before, layout, key, true),
                 Natural(before, layout, key, true));
  }

  lemma {:induction false} BodyFollows(base: seq<Segment>, c: Composition, s: Composition, keys: Text, layout: Layout, strict: bool)
    requires Shifted(base, c, s)
    ensures var rc, rs := AddBody(c, keys, layout, strict), AddBody(s, keys, layout, strict);
      rc.1 == rs.1 && (rs.1 ==> Shifted(base, rc.0, rs.0))
    decreases |keys|
  {
    hide AddKey, ReadyForKeys;
    if keys != [] {
      KeyFollows(base, c, s, keys[0], layout);
      var rc, rs := AddKey(c, keys[0], layout, true), AddKey(s, keys[0], layout, true);
      if !(rs.1.None? || (strict && !rs.1.value.naturalExtension)) {
        BodyFollows(base, rc.0, rs.0, keys[1..], layout, strict);
      }
    }
  }

  /** Typing a syllable into a ready composition succeeds exactly when it does in an empty one, and then
      appends the same segments. */
  lemma ReplayFollows(b: Composition, keys: Text, toneKey: Key, layout: Layout, strict: bool)
    requires b.caret <= |b.segments| && ReadyForKeys(b)
    ensures var r, e := AddKeys(b, keys, toneKey, layout, strict), AddKeys(EMPTY, keys, toneKey, layout, strict);
      && r.1.Some? == e.1.Some?
      && (e.1.Some? ==>
            r.0.segments == b.segments + e.0.segments && r.0.caret == |r.0.segments| &&
            r.1.value == e.1.value.(segmentIndex := |b.segments| + e.1.value.segmentIndex))
  {
    hide AddKey, AddBody;
    NothingAdded(b.segments);
    BodyFollows(b.segments, b, EMPTY, keys, layout, strict);
    var rc, rs := AddBody(b, keys, layout, strict), AddBody(EMPTY, keys, layout, strict);
    if rs.1 {
      KeyFollows(b.segments, rc.0, rs.0, toneKey, layout);
    }
  }

  /** A completed key leaves a finished reading just before the caret. */
  lemma CompletedKey(b: Composition, key: Key, layout: Layout)
    requires b.caret <= |b.segments| && b.caret == |b.segments|
    ensures var r := AddKey(b, key, layout, true);
      r.1.Some? && r.1.value.completed ==>
        r.0.segments != [] && r.0.caret == |r.0.segments| && r.1.value.segmentIndex == |r.0.segments| - 1 &&
        Finished(r.0.segments[|r.0.segments| - 1])
  {
    hide StatusAfter, Typed, Natural;
    var before := ActiveSyllable(b);
    CompletedIsComplete(before, layout, key);
  }

  lemma CompletedIsComplete(before: Syllable, layout: Layout, key: Key)
    ensures StatusAfter(before, layout, key, true) == Completed ==> Typed(before, layout, key, true).Complete()
  {
    TypedKeepsSomething(before, layout, key, true);
  }

  predicate Finished(segment: Segment) {
    segment.literal == 0 && segment.Complete() && !segment.manuallyChosen && !segment.phraseOverrideChosen
  }

  lemma CompletedSyllable(keys: Text, toneKey: Key, layout: Layout, strict: bool)
    ensures var e := AddKeys(EMPTY, keys, toneKey, layout, strict);
      e.1.Some? ==> e.1.value.completed && e.0.segments != [] && e.1.value.segmentIndex == |e.0.segments| - 1 &&
                    Finished(e.0.segments[|e.0.segments| - 1])
  {
    hide AddKey, AddBody, Finished;
    AddBodyAppends(EMPTY, EMPTY, keys, layout, strict);
    var body := AddBody(EMPTY, keys, layout, strict);
    CompletedKey(body.0, toneKey, layout);
  }
}
