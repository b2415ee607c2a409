/** What each editing operation does to what the user sees (engine/src/buffer/composition_buffer.cpp:57-573). */
module CompositionEffects {
  import opened Wrappers
  import opened Sequences
  import opened Syllables
  import opened Keymap
  import opened Compositions

  // ----- one segment more, less or other -----

  /** `n` shows `middle` where `b` shows its segments from `from` to `to`. */
  ghost predicate Splices(b: seq<Segment>, n: seq<Segment>, from: nat, to: nat, middle: Text) {
    && from <= to <= |b|
    && Rendered(b) == Rendered(b[..from]) + Rendered(b[from..to]) + Rendered(b[to..])
    && Rendered(n) == Rendered(b[..from]) + middle + Rendered(b[to..])
  }

  lemma {:induction false} SplicesAt(b: seq<Segment>, n: seq<Segment>, from: nat, to: nat, middle: seq<Segment>)
    requires from <= to <= |b| && n == b[..from] + middle + b[to..]
    ensures Splices(b, n, from, to, Rendered(middle))
  {
    hide Rendered;
    RenderedAppend(b[..from] + middle, b[to..]);
    RenderedAppend(b[..from], middle);
    RenderedAppend(b[..from] + b[from..to], b[to..]);
    RenderedAppend(b[..from], b[from..to]);
    assert b == b[..from] + b[from..to] + b[to..];
  }

  lemma RenderedOne(s: Segment)
    ensures Rendered([s]) == s.RenderedText()
  {
    assert [s][1..] == [];
    NothingAdded(s.RenderedText());
  }

  lemma Removing(b: seq<Segment>, index: nat)
    requires index < |b|
    ensures Splices(b, b[..index] + b[index + 1..], index, index + 1, [])
  {
    NothingAdded(b[..index]);
    SplicesAt(b, b[..index] + b[index + 1..], index, index + 1, []);
  }

  lemma Replacing(b: seq<Segment>, index: nat, s: Segment)
    requires index < |b|
    ensures Splices(b, b[index := s], index, index + 1, s.RenderedText())
  {
    RenderedOne(s);
    assert b[index := s] == b[..index] + [s] + b[index + 1..];
    SplicesAt(b, b[index := s], index, index + 1, [s]);
  }

  lemma Inserting(b: seq<Segment>, index: nat, s: Segment)
    requires index <= |b|
    ensures Splices(b, b[..index] + [s] + b[index..], index, index, s.RenderedText())
  {
    RenderedOne(s);
    SplicesAt(b, b[..index] + [s] + b[index..], index, index, [s]);
  }

  // ----- deleting -----

  lemma PoppedOnce(s: Syllable)
    requires s.Proper() && !s.Empty()
    ensures |s.Text()| >= 1 && Popped(s).Text() == s.Text()[..|s.Text()| - 1]
    ensures Popped(s).Empty() <==> |s.Text()| == 1
  {
  }

  /** Backspace takes a shown character away whole, and from a reading that is still typed exactly its last symbol;
      a reading of one symbol goes with its segment. */
  lemma BackspaceTakesOne(b: Composition)
    requires b.Valid()
    ensures var (n, ok) := Backspace(b);
      if b.caret == 0 then !ok && n == b.(anchor := None)
      else
        var last := b.segments[b.caret - 1];
        && ok && n.anchor.None?
        && if last.VisibleCandidate() || |last.Reading()| == 1 then
             && n.segments == b.segments[..b.caret - 1] + b.segments[b.caret..] && n.caret == b.caret - 1
             && Splices(b.segments, n.segments, b.caret - 1, b.caret, [])
           else
             var shorter := last.Reading()[..|last.Reading()| - 1];
             && shorter != [] && n.caret == b.caret && |n.segments| == |b.segments|
             && n.segments == b.segments[b.caret - 1 := n.segments[b.caret - 1]]
             && n.segments[b.caret - 1].Reading() == shorter && !n.segments[b.caret - 1].VisibleCandidate()
             && Splices(b.segments, n.segments, b.caret - 1, b.caret, shorter)
  {
    hide Rendered, Popped, Splices;
    if b.caret > 0 {
      var last := b.segments[b.caret - 1];
      Removing(b.segments, b.caret - 1);
      if !last.VisibleCandidate() {
        PoppedOnce(last.syllable);
        Replacing(b.segments, b.caret - 1, NewReading(Popped(last.syllable), false, []));
      }
    }
  }

  /** Removing a segment keeps the caret between the same neighbours. */
  lemma RemovesOne(b: Composition, index: nat)
    requires b.Valid() && index < |b.segments|
    ensures var (n, ok) := RemoveSegment(b, index);
      && ok && n.segments == b.segments[..index] + b.segments[index + 1..] && Splices(b.segments, n.segments, index, index + 1, [])
      && (if index < b.caret then n.segments[n.caret..] == b.segments[b.caret..] else n.segments[..n.caret] == b.segments[..b.caret])
      && n.caret <= |n.segments| && n.anchor.None?
  {
    hide Rendered, Splices;
    Removing(b.segments, index);
    var n := RemoveSegment(b, index).0;
    if index < b.caret {
      assert n.segments[n.caret..] == b.segments[b.caret..];
    } else {
      assert n.segments[..n.caret] == b.segments[..b.caret];
    }
  }

  /** Nothing is unfinished when clearing has nothing to clear; otherwise the reading at the caret goes, the one before
      it first, and the first one of all when there is none there. */
  lemma ClearsUnfinished(b: Composition)
    requires b.Valid()
    ensures var (n, ok) := ClearUnfinished(b);
      if forall i :: 0 <= i < |b.segments| ==> !b.segments[i].Unfinished() then !ok && n == b
      else
        exists k :: 0 <= k < |b.segments| && b.segments[k].Unfinished() && ok &&
          n.segments == b.segments[..k] + b.segments[k + 1..] &&
          (b.caret > 0 && b.segments[b.caret - 1].Unfinished() ==> k == b.caret - 1) &&
          (!(b.caret > 0 && b.segments[b.caret - 1].Unfinished()) && b.caret < |b.segments| && b.segments[b.caret].Unfinished() ==> k == b.caret) &&
          (!(b.caret > 0 && b.segments[b.caret - 1].Unfinished()) && !(b.caret < |b.segments| && b.segments[b.caret].Unfinished()) ==>
             forall i :: 0 <= i < k ==> !b.segments[i].Unfinished())
  {
    hide Segment.Unfinished;
    var first := FirstUnfinished(b.segments);
    var k := if b.caret > 0 && b.segments[b.caret - 1].Unfinished() then b.caret - 1
             else if b.caret < |b.segments| && b.segments[b.caret].Unfinished() then b.caret
             else first;
    if k < |b.segments| {
      assert b.segments[k].Unfinished();
    }
  }

  // ----- typing -----

  /** A literal is inserted at the caret, which moves behind it; the code point 0 is refused. */
  lemma LiteralInserts(b: Composition, symbol: Char)
    requires b.Valid()
    ensures var (n, ok) := AddLiteral(b, symbol);
      if symbol == 0 then !ok && n == b.(anchor := None)
      else
        && ok && n.caret == b.caret + 1 && |n.segments| == |b.segments| + 1
        && n.segments[..b.caret] == b.segments[..b.caret] && n.segments[n.caret..] == b.segments[b.caret..]
        && n.segments[b.caret].literal == symbol
        && Splices(b.segments, n.segments, b.caret, b.caret, Units(symbol))
  {
    hide Rendered, Splices, Units;
    if symbol != 0 {
      Inserting(b.segments, b.caret, NewLiteral(symbol));
    }
  }

  /** The reading that is being typed at the caret, nothing when there is none. */
  function OpenReading(b: Composition): Text
    requires b.caret <= |b.segments|
  {
    ActiveSyllable(b).Text()
  }

  /** A key that is refused leaves the text alone. Any other one makes the open reading what the layout makes of it, in
      place or as a new segment at the caret, finished exactly when the key completes it, and chosen by nobody. */
  lemma KeyTypes(b: Composition, key: Key, layout: Layout, acceptUppercase: bool)
    requires b.Valid()
    ensures var (n, r) := AddKey(b, key, layout, acceptUppercase);
      var before := ActiveSyllable(b);
      var status := StatusAfter(before, layout, key, acceptUppercase);
      if status == Rejected then r.None? && n == b.(anchor := None)
      else
        && r.Some? && r.value.completed == (status == Completed) && r.value.segmentIndex == n.caret - 1 && 0 < n.caret <= |n.segments|
        && var typed := n.segments[n.caret - 1];
        && typed.syllable == Typed(before, layout, key, acceptUppercase) && typed.literal == 0
        && typed.alternativeReadings ==
             (if status == Completed && layout == Hsu && typed.Reading() in HSU_ALTERNATIVES then HSU_ALTERNATIVES[typed.Reading()] else [])
        && typed.readingFinalized == (status == Completed) && !typed.manuallyChosen && !typed.phraseOverrideChosen && typed.candidates == []
        && if b.caret > 0 && !b.segments[b.caret - 1].VisibleCandidate() && !b.segments[b.caret - 1].readingFinalized
           then n.caret == b.caret && n.segments == b.segments[b.caret - 1 := typed]
           else n.caret == b.caret + 1 && n.segments == b.segments[..b.caret] + [typed] + b.segments[b.caret..]
  {
    hide Typed, StatusAfter, Natural;
  }

  /** Typing a symbol: it goes into the open segment where it fits or replaces its kind, otherwise it begins a segment
      if it can; a tone finishes a complete reading. */
  lemma SymbolTypes(b: Composition, symbol: Symbol)
    requires b.Valid()
    ensures var (n, ok) := AddBopomofo(b, symbol);
      var open := b.caret > 0 && !b.segments[b.caret - 1].VisibleCandidate() && !b.segments[b.caret - 1].readingFinalized;
      if open && (Accepts(b.segments[b.caret - 1].syllable, symbol) || Overwrites(b.segments[b.caret - 1].syllable, symbol)) then
        && ok && n.caret == b.caret && |n.segments| == |b.segments| && n.segments == b.segments[b.caret - 1 := n.segments[b.caret - 1]]
        && n.segments[b.caret - 1].syllable == Placed(b.segments[b.caret - 1].syllable, symbol)
        && n.segments[b.caret - 1].readingFinalized == (IsTone(symbol) && n.segments[b.caret - 1].syllable.Complete())
      else if IsInitial(symbol) || IsMedial(symbol) || IsFinal(symbol) || IsTone(symbol) then
        && ok && n.caret == b.caret + 1 && |n.segments| == |b.segments| + 1
        && n.segments[..b.caret] == b.segments[..b.caret] && n.segments[n.caret..] == b.segments[b.caret..]
        && n.segments[b.caret].Reading() == [symbol] && !n.segments[b.caret].readingFinalized
      else !ok && n == b.(anchor := None)
  {
    hide Overwrites;
  }

  /** In the standard layout a key extends the reading naturally exactly when the reading is not complete and the key's
      symbol comes behind everything but a tone typed early; in the Hsu layout, when the text gets longer. */
  lemma NaturalKeys(before: Syllable, key: Key, acceptUppercase: bool)
    requires before.Proper()
    ensures var symbol := LookupKey(key, acceptUppercase);
      Natural(before, Standard, key, acceptUppercase) <==>
        symbol.Some? && !before.Complete() && Comes(before, symbol.value)
    ensures Natural(before, Hsu, key, acceptUppercase) <==> |Typed(before, Hsu, key, acceptUppercase).Text()| > |before.Text()|
  {
    hide StandardSymbol;
  }

  /** The symbol comes behind the parts that are there: initial, medial, final, tone. */
  predicate Comes(s: Syllable, symbol: Symbol) {
    if 0x3105 <= symbol <= 0x3119 then s.initial == 0 && s.medial == 0 && s.final == 0
    else if 0x3127 <= symbol <= 0x3129 then s.medial == 0 && s.final == 0
    else if 0x311A <= symbol <= 0x3126 then s.final == 0
    else s.tone == 0 && (symbol == 0x20 || symbol == 0x2CA || symbol == 0x2C7 || symbol == 0x2CB || symbol == 0x2D9)
  }

  // ----- moving -----

  /** Moving and selecting leave the text alone; the caret moves by one, or not at all at the ends; a selection keeps
      the place where it began, and dropping it goes back there. */
  lemma MovesByOne(b: Composition, delta: int)
    requires b.Valid()
    ensures var (n, ok) := MoveLeft(b); n.segments == b.segments && n.anchor.None? && ok == (b.caret > 0) && n.caret == if ok then b.caret - 1 else b.caret
    ensures var (n, ok) := MoveRight(b);
      n.segments == b.segments && n.anchor.None? && ok == (b.caret < |b.segments|) && n.caret == if ok then b.caret + 1 else b.caret
    ensures var (n, ok) := ExtendSelection(b, delta);
      && n.segments == b.segments && (ok <==> (delta < 0 && b.caret > 0) || (delta > 0 && b.caret < |b.segments|))
      && if !ok then n == b
         else n.caret == (if delta < 0 then b.caret - 1 else b.caret + 1) && n.anchor == Some(if b.anchor.Some? then b.anchor.value else b.caret)
    ensures var (n, ok) := ClearSelection(b);
      n.segments == b.segments && n.anchor.None? && ok == b.anchor.Some? && n.caret == if ok then b.anchor.value else b.caret
    ensures var n := Clear(b); n.segments == [] && n.caret == 0 && n.anchor.None? && n.lastEdited.None?
  {
  }

  // ----- choosing -----

  /** Choosing shows the chosen candidate and marks it as the user's; cancelling shows the first one again, as nobody's
      choice. No other segment changes. */
  lemma ChoosesOne(b: Composition, index: nat, candidate: nat, moveCursor: bool)
    requires b.Valid() && index < |b.segments|
    ensures var (n, ok) := SelectCandidate(b, index, candidate, moveCursor);
      && ok == (candidate < |b.segments[index].candidates|)
      && if !ok then n == b
         else
           && |n.segments| == |b.segments| && n.segments == b.segments[index := n.segments[index]]
           && n.segments[index].ExplicitlyChosen() && n.segments[index].Reading() == b.segments[index].Reading()
           && (b.segments[index].Complete() && b.segments[index].literal == 0 ==>
                 n.segments[index].SelectedCandidate() == b.segments[index].candidates[candidate])
           && n.caret == if moveCursor then index + 1 else b.caret
    ensures var (n, ok) := CancelSelection(b, index);
      && ok == (b.segments[index].manuallyChosen || b.segments[index].selectedIndex != 0)
      && n.caret == b.caret && |n.segments| == |b.segments| && n.segments == b.segments[index := n.segments[index]]
      && !n.segments[index].manuallyChosen && n.segments[index].selectedIndex == 0
      && n.segments[index].candidates == b.segments[index].candidates && n.segments[index].Reading() == b.segments[index].Reading()
  {
  }

  lemma SelectedFirst(s: Segment)
    ensures s.candidates != [] && s.selectedIndex == 0 && s.Complete() && s.literal == 0 ==> s.SelectedCandidate() == s.candidates[0]
  {
  }

  /** New candidates never replace what the user chose, nor the character of a pinned phrase that is shown; any other
      segment shows the first of them. */
  lemma RefreshKeepsChoices(b: Composition, index: nat, candidates: seq<Char>)
    requires b.Valid() && index < |b.segments|
    ensures var n := RefreshCandidates(b, index, candidates).0;
      var before, after := b.segments[index], n.segments[index];
      && n.caret == b.caret && |n.segments| == |b.segments| && n.segments == b.segments[index := after] && after.Reading() == before.Reading()
      && (before.ExplicitlyChosen() ==> after == before)
      && (before.phraseOverrideChosen && before.SelectedCandidate() != 0 ==>
            after.phraseOverrideChosen && after.SelectedCandidate() == before.SelectedCandidate())
      && (!before.manuallyChosen && !before.phraseOverrideChosen ==> after.candidates == candidates && after.selectedIndex == 0 && !after.manuallyChosen)
  {
    hide Without;
    assert b.segments[index := b.segments[index]] == b.segments;
  }

  /** Setting candidates without keeping choices offers them and forgets what was chosen. */
  lemma OffersCandidates(b: Composition, index: nat, candidates: seq<Char>, preserve: bool)
    requires b.Valid() && index < |b.segments|
    ensures var (n, ok) := SetCandidates(b, index, candidates, preserve);
      && ok == !(preserve && b.segments[index].manuallyChosen)
      && if !ok then n == b
         else
           && n.caret == b.caret && |n.segments| == |b.segments| && n.segments == b.segments[index := n.segments[index]]
           && n.segments[index].candidates == candidates && n.segments[index].selectedIndex == 0 && !n.segments[index].manuallyChosen
           && !n.segments[index].phraseOverrideChosen && n.segments[index].Reading() == b.segments[index].Reading()
  {
  }

  lemma {:induction false} WithoutIs(list: seq<Char>, value: Char, c: Char)
    ensures multiset(Without(list, value))[c] == if c == value then 0 else multiset(list)[c]
  {
    if list != [] {
      WithoutIs(list[1..], value, c);
      assert list == [list[0]] + list[1..];
    }
  }

  /** Pinning shows the character, in front, and still offers every other candidate as often as before. */
  lemma PinningOffersAll(s: Segment, value: Char, c: Char)
    requires s.Complete() && s.literal == 0
    ensures var p := PinnedTo(s, value);
      && p.SelectedCandidate() == value && p.phraseOverrideChosen && !p.ExplicitlyChosen() && p.Reading() == s.Reading()
      && p.candidates != [] && p.candidates[0] == value
      && (c != value ==> multiset(p.candidates)[c] == multiset(s.candidates)[c])
  {
    WithoutIs(s.candidates, value, c);
    assert s.candidates == [] || s.candidates[0] != value ==>
      multiset([value] + Without(s.candidates, value)) == multiset([value]) + multiset(Without(s.candidates, value));
  }

  /** So does refreshing a pinned segment with the new candidates. */
  lemma RefreshingOffersAll(s: Segment, candidates: seq<Char>, c: Char)
    requires s.SelectedCandidate() != 0 && c != s.SelectedCandidate()
    ensures multiset(RefreshedSegment(s, candidates).candidates)[c] == multiset(candidates)[c]
    ensures RefreshedSegment(s, candidates).candidates[0] == s.SelectedCandidate()
  {
    var pinned := s.SelectedCandidate();
    WithoutIs(candidates, pinned, c);
    assert multiset([pinned] + Without(candidates, pinned)) == multiset([pinned]) + multiset(Without(candidates, pinned));
  }

  /** All of them are finished readings without a choice of the user's. */
  predicate AllFree(segments: seq<Segment>, from: nat, to: nat)
    requires to <= |segments|
  {
    forall i :: from <= i < to ==>
      segments[i].Complete() && segments[i].literal == 0 && !(segments[i].manuallyChosen && !segments[i].phraseOverrideChosen)
  }

  /** A phrase is pinned whole or not at all. */
  lemma PhrasesWholeOrNot(b: Composition, offset: nat, phrase: seq<Char>)
    requires b.Valid()
    ensures var (n, ok) := ApplyPhrase(b, offset, phrase);
      && n.caret == b.caret && |n.segments| == |b.segments|
      && (ok <==> phrase != [] && offset + |phrase| <= |b.segments| && AllFree(b.segments, offset, offset + |phrase|))
      && (!ok ==> n == b)
      && (ok ==> forall i :: 0 <= i < |b.segments| ==>
            if offset <= i < offset + |phrase| then n.segments[i].SelectedCandidate() == phrase[i - offset] && n.segments[i].phraseOverrideChosen
            else n.segments[i] == b.segments[i])
  {
    hide Without;
  }

  /** Clearing pins releases exactly the pinned segments of the range. */
  lemma PinsCleared(b: Composition, offset: nat, count: nat)
    requires b.Valid()
    ensures var (n, ok) := ClearPins(b, offset, count);
      && n.caret == b.caret && |n.segments| == |b.segments|
      && (ok <==> exists i :: 0 <= i < |b.segments| && offset <= i < offset + count && b.segments[i].phraseOverrideChosen)
      && forall i :: 0 <= i < |b.segments| ==>
           if offset <= i < offset + count && b.segments[i].phraseOverrideChosen
           then n.segments[i] == b.segments[i].(manuallyChosen := false, phraseOverrideChosen := false)
           else n.segments[i] == b.segments[i]
  {
    var segments := UnpinnedSegments(b.segments, offset, count);
    forall i | 0 <= i < |b.segments| && offset <= i < offset + count && b.segments[i].phraseOverrideChosen ensures segments[i] != b.segments[i] {
    }
    if segments != b.segments {
      var i :| 0 <= i < |b.segments| && segments[i] != b.segments[i];
    }
  }
}
