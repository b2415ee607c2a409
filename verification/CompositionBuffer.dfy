/** The composition buffer of the source: one object whose methods edit it in place. Every method is proved
    to do what the function of the same operation in Composition.dfy says. */
module CompositionBuffers {
  import opened Wrappers
  import opened Sequences
  import opened Syllables
  import opened Keymap
  import opened Compositions
  import opened CompositionRuns

  class CompositionBuffer {
    var segments: seq<Segment>
    var caret: nat
    var revision: nat
    var lastEdited: Option<nat>
    var anchor: Option<nat>

    ghost function Value(): Composition
      reads this
    {
      Composition(segments, caret, revision, lastEdited, anchor)
    }

    ghost predicate Valid()
      reads this
    {
      Value().Valid()
    }

    constructor ()
      ensures Value() == EMPTY && Valid()
    {
      segments, caret, revision, lastEdited, anchor := [], 0, 0, None, None;
    }

    constructor Copy(other: CompositionBuffer)
      ensures Value() == other.Value()
    {
      segments, caret, revision, lastEdited, anchor := other.segments, other.caret, other.revision, other.lastEdited, other.anchor;
    }

    method Touch()
      modifies this`revision
      ensures revision == old(revision) + 1
    {
      revision := revision + 1;
    }

    method Insert(segment: Segment)
      requires caret <= |segments|
      modifies this`segments
      ensures segments == old(segments[..caret] + [segment] + segments[caret..])
    {
      segments := segments[..caret] + [segment] + segments[caret..];
    }

    method Erase(index: nat)
      requires index < |segments|
      modifies this`segments
      ensures segments == old(segments[..index] + segments[index + 1..])
    {
      segments := segments[..index] + segments[index + 1..];
    }

    /** Types into the segment before the caret, which is still open. */
    method TypeIntoOpen(symbol: Symbol) returns (accepted: bool)
      requires caret <= |segments| && OpenBeforeCaret(Value())
      modifies this
      ensures var b := old(Value());
        var before := b.segments[b.caret - 1].syllable;
        var typed := Placed(before, symbol);
        && accepted == (Accepts(before, symbol) || Overwrites(before, symbol))
        && Value() == if accepted then Replaced(b, b.caret - 1, NewReading(typed, IsTone(symbol) && typed.Complete(), []))
                                         .(lastEdited := Some(b.caret - 1))
                      else b
    {
      hide Accepts, Overwrites, Placed;
      var segment := segments[caret - 1];
      var cell := new SyllableCell(segment.syllable);
      accepted := cell.Accept(symbol);
      if !accepted {
        accepted := cell.Overwrite(symbol);
      }
      if accepted {
        var typed := cell.Read();
        segments := segments[caret - 1 := segment.(
          syllable := typed, candidates := [], selectedIndex := 0, manuallyChosen := false, phraseOverrideChosen := false,
          readingFinalized := IsTone(symbol) && typed.Complete(), alternativeReadings := [])];
        lastEdited := Some(caret - 1);
        Touch();
      }
    }

    method AddBopomofo(symbol: Symbol) returns (ok: bool)
      requires Valid()
      modifies this
      ensures Valid()
      ensures (Value(), ok) == Compositions.AddBopomofo(old(Value()), symbol)
    {
      hide Accepts, Overwrites, Placed, Follows;
      AddBopomofoFollows(Value(), symbol);
      FollowsIsValid(Value(), Compositions.AddBopomofo(Value(), symbol).0);
      anchor := None;
      if caret > 0 && !segments[caret - 1].VisibleCandidate() && !segments[caret - 1].readingFinalized {
        var accepted := TypeIntoOpen(symbol);
        if accepted {
          return true;
        }
      }
      var next := new SyllableCell(NO_SYLLABLE);
      var accepted := next.Accept(symbol);
      if !accepted {
        return false;
      }
      var typed := next.Read();
      Insert(NewReading(typed, IsTone(symbol) && typed.Complete(), []));
      lastEdited := Some(caret);
      caret := caret + 1;
      Touch();
      return true;
    }

    /** Writes a typed reading into the active segment, or inserts it at the caret. */
    method StoreTyped(activeIndex: nat, status: KeyStatus, typed: Segment, natural: bool) returns (r: Option<InputResult>)
      requires caret <= |segments|
      requires activeIndex == if ActiveBeforeCaret(Value()) then caret - 1 else |segments|
      modifies this
      ensures (Value(), r) == AddTyped(old(Value()), status, typed, natural)
    {
      anchor := None;
      if status == Rejected {
        return None;
      }
      var index := activeIndex;
      if index < |segments| {
        segments := segments[index := typed];
      } else {
        Insert(typed);
        index := caret;
        caret := caret + 1;
      }
      lastEdited := Some(index);
      Touch();
      return Some(InputResult(index, status == Completed, natural));
    }

    /** The segment a key may still change, its length when there is none. */
    method ActiveIndex() returns (activeIndex: nat, before: Syllable)
      requires caret <= |segments|
      ensures activeIndex == if ActiveBeforeCaret(Value()) then caret - 1 else |segments|
      ensures before == ActiveSyllable(Value())
    {
      activeIndex := |segments|;
      if caret > 0 && !segments[caret - 1].VisibleCandidate() && !segments[caret - 1].readingFinalized && !segments[caret - 1].Empty() {
        activeIndex := caret - 1;
      }
      before := if activeIndex < |segments| then segments[activeIndex].syllable else NO_SYLLABLE;
    }

    method AddBopomofoKey(key: Key, layout: Layout, acceptUppercase: bool) returns (r: Option<InputResult>)
      requires Valid()
      modifies this
      ensures Valid()
      ensures (Value(), r) == AddKey(old(Value()), key, layout, acceptUppercase)
    {
      AddKeyFollows(Value(), key, layout, acceptUppercase);
      var activeIndex, before := ActiveIndex();
      var status, typed, natural := TypeKey(before, key, layout, acceptUppercase);
      r := StoreTyped(activeIndex, status, typed, natural);
    }

    /** Dropping what a failed syllable added. */
    method RollBack(originalSize: nat, originalCaret: nat)
      modifies this
      ensures caret == originalCaret && lastEdited == None && anchor == old(anchor) && revision == old(revision) + 1
      ensures segments == if old(|segments|) > originalSize then old(segments)[..originalSize] else old(segments)
    {
      while |segments| > originalSize
        invariant segments <= old(segments) && (|segments| >= originalSize || segments == old(segments))
        invariant caret == old(caret) && revision == old(revision) && anchor == old(anchor)
      {
        segments := segments[..|segments| - 1];
      }
      caret := originalCaret;
      lastEdited := None;
      Touch();
    }

    method TypeBody(keys: Text, layout: Layout, strict: bool) returns (ok: bool)
      requires Valid()
      modifies this
      ensures Valid()
      ensures (Value(), ok) == AddBody(old(Value()), keys, layout, strict)
    {
      hide AddKey, AddBody, Follows;
      var k := 0;
      Whole(keys);
      while k < |keys|
        invariant 0 <= k <= |keys| && Valid()
        invariant AddBody(old(Value()), keys, layout, strict) == AddBody(Value(), keys[k..], layout, strict)
      {
        PushOne(keys, k);
        BodyStep(Value(), keys[k..], layout, strict);
        var result := AddBopomofoKey(keys[k], layout, true);
        if result.None? || (strict && !result.value.naturalExtension) {
          return false;
        }
        k := k + 1;
      }
      BodyStep(Value(), [], layout, strict);
      return true;
    }

    method AddBopomofoKeys(keys: Text, toneKey: Key, layout: Layout, strict: bool) returns (r: Option<InputResult>)
      requires Valid()
      modifies this
      ensures Valid()
      ensures (Value(), r) == AddKeys(old(Value()), keys, toneKey, layout, strict)
      ensures r.None? ==> segments == old(segments) && caret == old(caret)
    {
      hide AddKey, AddBody, Follows;
      AddKeysFollows(Value(), keys, toneKey, layout, strict);
      FollowsIsValid(Value(), AddKeys(Value(), keys, toneKey, layout, strict).0);
      if caret != |segments| {
        return None;
      }
      if caret > 0 {
        var previous := segments[caret - 1];
        if !previous.VisibleCandidate() && !previous.readingFinalized {
          return None;
        }
      }
      var originalSize, originalCaret := |segments|, caret;
      var ok := TypeBody(keys, layout, strict);
      if !ok {
        RollBack(originalSize, originalCaret);
        return None;
      }
      r := AddBopomofoKey(toneKey, layout, true);
      if r.None? || !r.value.completed {
        RollBack(originalSize, originalCaret);
        return None;
      }
    }

    method AddLiteral(symbol: Char) returns (ok: bool)
      requires Valid()
      modifies this
      ensures Valid()
      ensures (Value(), ok) == Compositions.AddLiteral(old(Value()), symbol)
    {
      LiteralFollows(Value(), symbol);
      anchor := None;
      if symbol == 0 {
        return false;
      }
      Insert(NewLiteral(symbol));
      lastEdited := None;
      caret := caret + 1;
      Touch();
      return true;
    }

    method Backspace() returns (removed: bool)
      requires Valid()
      modifies this
      ensures Valid()
      ensures (Value(), removed) == Compositions.Backspace(old(Value()))
    {
      hide Popped, Follows;
      BackspaceFollows(Value());
      FollowsIsValid(Value(), Compositions.Backspace(Value()).0);
      anchor := None;
      if segments == [] || caret == 0 {
        return false;
      }
      var segment := segments[caret - 1];
      lastEdited := Some(caret - 1);
      if segment.VisibleCandidate() {
        Erase(caret - 1);
        caret := caret - 1;
        lastEdited := None;
        Touch();
        return true;
      }
      var cell := new SyllableCell(segment.syllable);
      removed := cell.PopBack();
      var shorter := cell.Read();
      if shorter.Empty() {
        Erase(caret - 1);
        caret := caret - 1;
        lastEdited := None;
      } else {
        segments := segments[caret - 1 := segment.(
          syllable := shorter, candidates := [], selectedIndex := 0, manuallyChosen := false, phraseOverrideChosen := false,
          readingFinalized := false, alternativeReadings := [])];
      }
      if removed {
        Touch();
      }
    }

    method RemoveSegment(index: nat) returns (ok: bool)
      requires Valid()
      modifies this
      ensures Valid()
      ensures (Value(), ok) == Compositions.RemoveSegment(old(Value()), index)
    {
      RemovedFollows(Value(), index);
      anchor := None;
      if index >= |segments| {
        return false;
      }
      Erase(index);
      if caret > index {
        caret := caret - 1;
      }
      caret := AtMost(caret, |segments|);
      lastEdited := None;
      Touch();
      return true;
    }

    method DeleteForward() returns (ok: bool)
      requires Valid()
      modifies this
      ensures Valid()
      ensures (Value(), ok) == Compositions.DeleteForward(old(Value()))
    {
      if caret >= |segments| {
        return false;
      }
      ok := RemoveSegment(caret);
    }

    // The two moves complete the source's class; the run theorems speak of what they do.

    method MoveCursorLeft() returns (ok: bool)
      requires Valid()
      modifies this
      ensures Valid()
      ensures (Value(), ok) == MoveLeft(old(Value()))
    {
      anchor := None;
      if caret == 0 {
        return false;
      }
      caret := caret - 1;
      lastEdited := None;
      Touch();
      return true;
    }

    method MoveCursorRight() returns (ok: bool)
      requires Valid()
      modifies this
      ensures Valid()
      ensures (Value(), ok) == MoveRight(old(Value()))
    {
      anchor := None;
      if caret >= |segments| {
        return false;
      }
      caret := caret + 1;
      lastEdited := None;
      Touch();
      return true;
    }

    method ExtendSelection(delta: int) returns (ok: bool)
      requires Valid()
      modifies this
      ensures Valid()
      ensures (Value(), ok) == Compositions.ExtendSelection(old(Value()), delta)
    {
      if segments == [] || delta == 0 {
        return false;
      }
      if caret == 0 && delta < 0 {
        return false;
      }
      if caret >= |segments| && delta > 0 {
        return false;
      }
      if anchor.None? {
        anchor := Some(if caret < |segments| then caret else |segments|);
      }
      if delta < 0 {
        caret := caret - 1;
      } else {
        caret := caret + 1;
      }
      lastEdited := None;
      Touch();
      return true;
    }

    method ClearSelection() returns (ok: bool)
      requires Valid()
      modifies this
      ensures Valid()
      ensures (Value(), ok) == Compositions.ClearSelection(old(Value()))
    {
      if anchor.None? {
        return false;
      }
      caret := anchor.value;
      anchor := None;
      Touch();
      return true;
    }

    method Clear()
      requires Valid()
      modifies this
      ensures Valid()
      ensures Value() == Compositions.Clear(old(Value()))
    {
      anchor := None;
      if segments == [] && caret == 0 {
        return;
      }
      segments, caret, lastEdited := [], 0, None;
      Touch();
    }

    method ClearUnfinishedReading() returns (ok: bool)
      requires Valid()
      modifies this
      ensures Valid()
      ensures (Value(), ok) == ClearUnfinished(old(Value()))
    {
      if caret > 0 && segments[caret - 1].Unfinished() {
        ok := RemoveSegment(caret - 1);
        return;
      }
      if caret < |segments| && segments[caret].Unfinished() {
        ok := RemoveSegment(caret);
        return;
      }
      var i := 0;
      while i < |segments| && !segments[i].Unfinished()
        invariant 0 <= i <= |segments|
        invariant forall k :: 0 <= k < i ==> !segments[k].Unfinished()
      {
        i := i + 1;
      }
      if i == |segments| {
        return false;
      }
      ok := RemoveSegment(i);
    }

    method SetSegmentCandidates(index: nat, candidates: seq<Char>, preserveManualChoice: bool) returns (ok: bool)
      requires Valid()
      modifies this
      ensures Valid()
      ensures (Value(), ok) == SetCandidates(old(Value()), index, candidates, preserveManualChoice)
    {
      hide Without, Follows;
      CandidatesFollow(Value(), index, candidates, preserveManualChoice);
      FollowsIsValid(Value(), SetCandidates(Value(), index, candidates, preserveManualChoice).0);
      if index >= |segments| {
        return false;
      }
      if preserveManualChoice && segments[index].manuallyChosen {
        return false;
      }
      segments := segments[index := segments[index].(
        candidates := candidates, selectedIndex := 0, manuallyChosen := false, phraseOverrideChosen := false)];
      Touch();
      return true;
    }

    method RefreshSegmentCandidates(index: nat, candidates: seq<Char>) returns (ok: bool)
      requires Valid()
      modifies this
      ensures Valid()
      ensures (Value(), ok) == RefreshCandidates(old(Value()), index, candidates)
    {
      hide Without, Follows;
      CandidatesFollow(Value(), index, candidates, true);
      FollowsIsValid(Value(), RefreshCandidates(Value(), index, candidates).0);
      if index >= |segments| {
        return false;
      }
      var segment := segments[index];
      if !segment.phraseOverrideChosen {
        ok := SetSegmentCandidates(index, candidates, true);
        return;
      }
      var pinned := segment.SelectedCandidate();
      segment := segment.(candidates := candidates);
      if pinned != 0 {
        var others := RemoveAll(segment.candidates, pinned);
        segment := segment.(candidates := [pinned] + others);
      }
      segments := segments[index := segment.(selectedIndex := 0)];
      Touch();
      return true;
    }

    method PinRange(offset: nat, phrase: seq<Char>) returns (changed: bool)
      requires offset + |phrase| <= |segments|
      modifies this`segments
      ensures segments == PinnedSegments(old(segments), offset, phrase) && changed == (segments != old(segments))
    {
      ghost var before := segments;
      changed := false;
      var i := 0;
      while i < |phrase|
        invariant 0 <= i <= |phrase| && |segments| == |before|
        invariant forall k :: 0 <= k < |segments| ==>
          segments[k] == if offset <= k < offset + i then PinnedTo(before[k], phrase[k - offset]) else before[k]
        invariant changed == (segments != before)
      {
        ghost var previous := segments;
        var pinned, differs := PinOne(segments[offset + i], phrase[i]);
        changed := changed || differs;
        segments := segments[offset + i := pinned];
        Overwrite(before, previous, segments, offset + i);
        i := i + 1;
      }
    }

    method ApplyPhraseOverride(offset: nat, phrase: seq<Char>) returns (ok: bool)
      requires Valid()
      modifies this
      ensures Valid()
      ensures (Value(), ok) == ApplyPhrase(old(Value()), offset, phrase)
    {
      PinsFollow(Value(), offset, phrase);
      if phrase == [] || offset > |segments| || |phrase| > |segments| - offset {
        return false;
      }
      var i := offset;
      while i < offset + |phrase|
        invariant offset <= i <= offset + |phrase|
        invariant forall k :: offset <= k < i ==> Pinnable(segments[k])
      {
        var segment := segments[i];
        if !segment.Complete() || segment.literal != 0 || (segment.manuallyChosen && !segment.phraseOverrideChosen) {
          return false;
        }
        i := i + 1;
      }
      var changed := PinRange(offset, phrase);
      if changed {
        Touch();
      }
      return true;
    }

    method ClearPhraseOverrideChoices(offset: nat, count: nat) returns (changed: bool)
      requires Valid()
      modifies this
      ensures Valid()
      ensures (Value(), changed) == ClearPins(old(Value()), offset, count)
    {
      ghost var b := Value();
      UnpinsFollow(b, offset, count);
      changed := false;
      var end := if offset + count < |segments| then offset + count else |segments|;
      var i := offset;
      while i < end
        invariant offset <= i && (i <= end || i == offset) && Value() == b.(segments := segments) && |segments| == |b.segments|
        invariant forall k :: 0 <= k < |segments| ==> segments[k] == if offset <= k < i then Unpinned(b.segments[k]) else b.segments[k]
        invariant changed == exists k :: offset <= k < i && k < |segments| && b.segments[k].phraseOverrideChosen
      {
        if segments[i].phraseOverrideChosen {
          segments := segments[i := segments[i].(manuallyChosen := false, phraseOverrideChosen := false)];
          changed := true;
        }
        i := i + 1;
      }
      assert segments == UnpinnedSegments(b.segments, offset, count);
      assert changed ==> segments != b.segments by {
        if changed {
          var k :| offset <= k < i && k < |segments| && b.segments[k].phraseOverrideChosen;
          assert segments[k] != b.segments[k];
        }
      }
      if changed {
        Touch();
      }
    }

    method SelectCandidate(index: nat, candidate: nat, moveCursor: bool) returns (ok: bool)
      requires Valid()
      modifies this
      ensures Valid()
      ensures (Value(), ok) == Compositions.SelectCandidate(old(Value()), index, candidate, moveCursor)
    {
      ChoiceFollows(Value(), index, candidate, moveCursor);
      if index >= |segments| || candidate >= |segments[index].candidates| {
        return false;
      }
      anchor := None;
      segments := segments[index := segments[index].(selectedIndex := candidate, manuallyChosen := true, phraseOverrideChosen := false)];
      if moveCursor {
        caret := index + 1;
      }
      lastEdited := Some(index);
      Touch();
      return true;
    }

    method CancelCandidateSelection(index: nat) returns (ok: bool)
      requires Valid()
      modifies this
      ensures Valid()
      ensures (Value(), ok) == CancelSelection(old(Value()), index)
    {
      ChoiceFollows(Value(), index, 0, false);
      if index >= |segments| {
        return false;
      }
      anchor := None;
      if !segments[index].manuallyChosen && segments[index].selectedIndex == 0 {
        return false;
      }
      segments := segments[index := segments[index].(selectedIndex := 0, manuallyChosen := false, phraseOverrideChosen := false)];
      lastEdited := Some(index);
      Touch();
      return true;
    }

    method RenderedComposition() returns (text: Text)
      ensures text == Rendered(segments)
    {
      text := [];
      var i := 0;
      while i < |segments|
        invariant 0 <= i <= |segments| && text == Rendered(segments[..i])
      {
        PushOne(segments, i);
        RenderedPush(segments[..i], segments[i]);
        text := text + segments[i].RenderedText();
        i := i + 1;
      }
      Whole(segments);
    }

    method CompletedSegmentIndices() returns (indices: seq<nat>)
      ensures indices == CompletedFrom(segments, 0)
    {
      indices := [];
      var i := 0;
      while i < |segments|
        invariant 0 <= i <= |segments| && CompletedFrom(segments, 0) == indices + CompletedFrom(segments, i)
      {
        if segments[i].Complete() {
          Associative(indices, [i], CompletedFrom(segments, i + 1));
          indices := indices + [i];
        }
        i := i + 1;
      }
    }
  }

  lemma FollowsIsValid(b: Composition, c: Composition)
    requires Follows(b, c)
    ensures c.Valid()
  {
  }

  /** The next key of a syllable. */
  lemma {:induction false} BodyStep(b: Composition, keys: Text, layout: Layout, strict: bool)
    requires b.caret <= |b.segments|
    ensures keys == [] ==> AddBody(b, keys, layout, strict) == (b, true)
    ensures keys != [] ==>
      var step := AddKey(b, keys[0], layout, true);
      AddBody(b, keys, layout, strict) ==
        if step.1.None? || (strict && !step.1.value.naturalExtension) then (step.0, false) else AddBody(step.0, keys[1..], layout, strict)
  {
    hide AddKey;
  }

  lemma {:induction false} RenderedPush(front: seq<Segment>, last: Segment)
    ensures Rendered(front + [last]) == Rendered(front) + last.RenderedText()
  {
    RenderedAppend(front, [last]);
    NothingAdded(last.RenderedText());
    assert [last][1..] == [];
  }

  lemma Overwrite(before: seq<Segment>, previous: seq<Segment>, current: seq<Segment>, index: nat)
    requires |before| == |previous| == |current| && index < |previous| && previous[index] == before[index]
    requires current == previous[index := current[index]]
    ensures (current != before) == (previous != before || current[index] != before[index])
  {
    if current == before {
      assert forall k :: 0 <= k < |before| ==> previous[k] == before[k];
    }
  }

  /** One key on a copy of the active syllable: the segment it makes, and whether the key only added to it. */
  method TypeKey(before: Syllable, key: Key, layout: Layout, acceptUppercase: bool)
    returns (status: KeyStatus, segment: Segment, natural: bool)
    ensures status == StatusAfter(before, layout, key, acceptUppercase)
    ensures segment == TypedSegment(before, layout, key, acceptUppercase)
    ensures natural == Natural(before, layout, key, acceptUppercase)
  {
    var active := new SyllableCell(before);
    natural := false;
    if layout == Standard {
      var attempt := new SyllableCell(before);
      var symbol := LookupKey(key, acceptUppercase);
      if symbol.Some? {
        natural := attempt.Accept(symbol.value);
      }
    }
    var result := ApplyBopomofoKey(active, layout, key, acceptUppercase);
    status := result.status;
    var typed := active.Read();
    if layout == Hsu {
      natural := |typed.Text()| > |before.Text()|;
    }
    segment := NewReading(typed, status == Completed, if status == Completed then result.alternatives else []);
  }

  /** std::remove followed by erase. */
  method RemoveAll(list: seq<Char>, value: Char) returns (kept: seq<Char>)
    ensures kept == Without(list, value)
  {
    kept := [];
    var i := 0;
    while i < |list|
      invariant 0 <= i <= |list| && Without(list, value) == kept + Without(list[i..], value)
    {
      PushOne(list, i);
      if list[i] != value {
        Associative(kept, [list[i]], Without(list[i + 1..], value));
        kept := kept + [list[i]];
      }
      i := i + 1;
    }
    Whole(list);
  }

  /** One position of a phrase; tells whether the segment changed. */
  method PinOne(segment: Segment, value: Char) returns (pinned: Segment, differs: bool)
    ensures pinned == PinnedTo(segment, value) && (differs <==> pinned != segment)
  {
    differs := false;
    pinned := segment;
    if segment.candidates == [] || segment.candidates[0] != value {
      var others := RemoveAll(segment.candidates, value);
      pinned := segment.(candidates := [value] + others);
      differs := true;
    }
    if segment.selectedIndex != 0 || !segment.manuallyChosen || !segment.phraseOverrideChosen {
      differs := true;
    }
    pinned := pinned.(selectedIndex := 0, manuallyChosen := true, phraseOverrideChosen := true);
  }
}
