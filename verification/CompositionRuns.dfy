/** What every run of editing operations keeps, and what the revision counter says about a composition. */
module CompositionRuns {
  import opened Wrappers
  import opened Syllables
  import opened Keymap
  import opened Compositions

  datatype Edit =
    | Bopomofo(symbol: Symbol)
    | Type(key: Key, layout: Layout, acceptUppercase: bool)
    | TypeAll(keys: Text, toneKey: Key, layout: Layout, strict: bool)
    | Literal(value: Char)
    | DeleteBack
    | DeleteNext
    | Left
    | Right
    | Mark(delta: int)
    | Unmark
    | Reset
    | DropUnfinished
    | Offer(index: nat, candidates: seq<Char>, preserve: bool)
    | Refresh(index: nat, candidates: seq<Char>)
    | Pin(offset: nat, phrase: seq<Char>)
    | Unpin(offset: nat, count: nat)
    | Choose(index: nat, candidate: nat, moveCursor: bool)
    | Cancel(index: nat)
    | Remove(index: nat)

  function Edited(b: Composition, e: Edit): Composition
    requires b.caret <= |b.segments|
  {
    match e
    case Bopomofo(symbol) => AddBopomofo(b, symbol).0
    case Type(key, layout, acceptUppercase) => AddKey(b, key, layout, acceptUppercase).0
    case TypeAll(keys, toneKey, layout, strict) => AddKeys(b, keys, toneKey, layout, strict).0
    case Literal(value) => AddLiteral(b, value).0
    case DeleteBack => Backspace(b).0
    case DeleteNext => DeleteForward(b).0
    case Left => MoveLeft(b).0
    case Right => MoveRight(b).0
    case Mark(delta) => ExtendSelection(b, delta).0
    case Unmark => ClearSelection(b).0
    case Reset => Clear(b)
    case DropUnfinished => ClearUnfinished(b).0
    case Offer(index, candidates, preserve) => SetCandidates(b, index, candidates, preserve).0
    case Refresh(index, candidates) => RefreshCandidates(b, index, candidates).0
    case Pin(offset, phrase) => ApplyPhrase(b, offset, phrase).0
    case Unpin(offset, count) => ClearPins(b, offset, count).0
    case Choose(index, candidate, moveCursor) => SelectCandidate(b, index, candidate, moveCursor).0
    case Cancel(index) => CancelSelection(b, index).0
    case Remove(index) => RemoveSegment(b, index).0
  }

  /** `c` is a valid successor of `b`: the revision never falls, and an unchanged revision means unchanged
      segments and caret. */
  ghost predicate Follows(b: Composition, c: Composition) {
    c.Valid() && b.revision <= c.revision &&
    (b.revision == c.revision ==> b.segments == c.segments && b.caret == c.caret)
  }

  lemma InsertedFollows(b: Composition, segment: Segment, lastEdited: Option<nat>)
    requires b.Valid() && segment.Sound() && (lastEdited.Some? ==> lastEdited.value <= |b.segments|)
    ensures Follows(b, Inserted(b, segment, lastEdited))
  {
  }

  lemma ReplacedFollows(b: Composition, index: nat, segment: Segment, lastEdited: Option<nat>, anchor: Option<nat>)
    requires b.Valid() && index < |b.segments| && segment.Sound()
    requires lastEdited == b.lastEdited || lastEdited == Some(index)
    requires anchor == b.anchor || anchor == None
    ensures Follows(b, Replaced(b, index, segment).(lastEdited := lastEdited, anchor := anchor))
  {
  }

  lemma NothingFollows(b: Composition)
    requires b.Valid()
    ensures Follows(b, b)
  {
  }

  lemma RemovedFollows(b: Composition, index: nat)
    requires b.Valid()
    ensures Follows(b, RemoveSegment(b, index).0)
  {
  }

  lemma AddKeyFollows(b: Composition, key: Key, layout: Layout, acceptUppercase: bool)
    requires b.Valid()
    ensures Follows(b, AddKey(b, key, layout, acceptUppercase).0)
  {
    var before := ActiveSyllable(b);
    TypedKeepsSomething(before, layout, key, acceptUppercase);
    TypedStaysProper(before, layout, key, acceptUppercase);
    if StatusAfter(before, layout, key, acceptUppercase) != Rejected {
      var segment := TypedSegment(before, layout, key, acceptUppercase);
      assert segment.Sound();
      if ActiveBeforeCaret(b) {
        ReplacedFollows(b, b.caret - 1, segment, Some(b.caret - 1), None);
      } else {
        InsertedFollows(b, segment, Some(b.caret));
      }
    }
  }

  lemma AddBopomofoFollows(b: Composition, symbol: Symbol)
    requires b.Valid()
    ensures Follows(b, AddBopomofo(b, symbol).0)
  {
    if OpenBeforeCaret(b) {
      var typed := Placed(b.segments[b.caret - 1].syllable, symbol);
      if Accepts(b.segments[b.caret - 1].syllable, symbol) || Overwrites(b.segments[b.caret - 1].syllable, symbol) {
        ReplacedFollows(b, b.caret - 1, NewReading(typed, IsTone(symbol) && typed.Complete(), []), Some(b.caret - 1), None);
        return;
      }
    }
    if Accepts(NO_SYLLABLE, symbol) {
      var typed := Placed(NO_SYLLABLE, symbol);
      InsertedFollows(b, NewReading(typed, IsTone(symbol) && typed.Complete(), []), Some(b.caret));
    }
  }

  lemma BackspaceFollows(b: Composition)
    requires b.Valid()
    ensures Follows(b, Backspace(b).0)
  {
    if b.caret > 0 {
      var segment := b.segments[b.caret - 1];
      if !segment.VisibleCandidate() && !Popped(segment.syllable).Empty() {
        ReplacedFollows(b, b.caret - 1, NewReading(Popped(segment.syllable), false, []), Some(b.caret - 1), None);
      }
    }
  }

  // ----- typing a whole syllable -----

  /** `c` is `b` with the caret at the end and zero or more segments appended. */
  ghost predicate Appended(b: Composition, c: Composition) {
    c.Valid() && b.revision <= c.revision && c.caret == |c.segments| && b.segments <= c.segments &&
    (|c.segments| == |b.segments| ==> ReadyForKeys(c))
  }

  lemma AddKeyAppends(b: Composition, c: Composition, key: Key, layout: Layout)
    requires b.Valid() && Appended(b, c)
    ensures Appended(b, AddKey(c, key, layout, true).0)
  {
    AddKeyFollows(c, key, layout, true);
    var d := AddKey(c, key, layout, true).0;
    if ActiveBeforeCaret(c) {
      assert |c.segments| > |b.segments|;
    }
    assert b.segments <= d.segments;
  }

  lemma {:induction false} AddBodyAppends(b: Composition, c: Composition, keys: Text, layout: Layout, strict: bool)
    requires b.Valid() && Appended(b, c)
    ensures Appended(b, AddBody(c, keys, layout, strict).0)
    decreases |keys|
  {
    if keys != [] {
      AddKeyAppends(b, c, keys[0], layout);
      var step := AddKey(c, keys[0], layout, true);
      if !(step.1.None? || (strict && !step.1.value.naturalExtension)) {
        AddBodyAppends(b, step.0, keys[1..], layout, strict);
      }
    }
  }

  lemma {:induction false} FailedBodyHasNoAnchor(c: Composition, keys: Text, layout: Layout, strict: bool)
    requires c.Valid()
    ensures !AddBody(c, keys, layout, strict).1 ==> AddBody(c, keys, layout, strict).0.anchor == None
    decreases |keys|
  {
    if keys != [] {
      AddKeyFollows(c, keys[0], layout, true);
      var step := AddKey(c, keys[0], layout, true);
      if !(step.1.None? || (strict && !step.1.value.naturalExtension)) {
        FailedBodyHasNoAnchor(step.0, keys[1..], layout, strict);
      }
    }
  }

  lemma RolledBackFollows(b: Composition, tried: Composition)
    requires b.Valid() && Appended(b, tried) && tried.anchor == None
    ensures Follows(b, RolledBack(b, tried)) && b.revision < RolledBack(b, tried).revision
    ensures RolledBack(b, tried).segments == b.segments && RolledBack(b, tried).caret == b.caret
  {
  }

  /** Typing a whole syllable is all or nothing: on failure the segments and the caret are exactly as before,
      on success nothing that was there before is changed. */
  lemma AddKeysFollows(b: Composition, keys: Text, toneKey: Key, layout: Layout, strict: bool)
    requires b.Valid()
    ensures var r := AddKeys(b, keys, toneKey, layout, strict);
      && Follows(b, r.0)
      && (r.1.None? ==> r.0.segments == b.segments && r.0.caret == b.caret)
      && (r.1.Some? ==> b.segments <= r.0.segments && r.0.caret == |r.0.segments|)
  {
    if ReadyForKeys(b) {
      AddBodyAppends(b, b, keys, layout, strict);
      FailedBodyHasNoAnchor(b, keys, layout, strict);
      var body := AddBody(b, keys, layout, strict);
      if !body.1 {
        RolledBackFollows(b, body.0);
      } else {
        AddKeyAppends(b, body.0, toneKey, layout);
        var toned := AddKey(body.0, toneKey, layout, true);
        if toned.1.None? || !toned.1.value.completed {
          RolledBackFollows(b, toned.0);
        }
      }
    }
  }

  // ----- every operation, and every run -----

  lemma PinsFollow(b: Composition, offset: nat, phrase: seq<Char>)
    requires b.Valid()
    ensures Follows(b, ApplyPhrase(b, offset, phrase).0)
  {
  }

  lemma UnpinsFollow(b: Composition, offset: nat, count: nat)
    requires b.Valid()
    ensures Follows(b, ClearPins(b, offset, count).0)
  {
  }

  lemma CandidatesFollow(b: Composition, index: nat, candidates: seq<Char>, preserve: bool)
    requires b.Valid()
    ensures Follows(b, SetCandidates(b, index, candidates, preserve).0)
    ensures Follows(b, RefreshCandidates(b, index, candidates).0)
    ensures |RefreshCandidates(b, index, candidates).0.segments| == |b.segments|
  {
    if index < |b.segments| {
      var offered := b.segments[index].(candidates := candidates, selectedIndex := 0, manuallyChosen := false, phraseOverrideChosen := false);
      ReplacedFollows(b, index, offered, b.lastEdited, b.anchor);
      ReplacedFollows(b, index, RefreshedSegment(b.segments[index], candidates), b.lastEdited, b.anchor);
    }
  }

  lemma ChoiceFollows(b: Composition, index: nat, candidate: nat, moveCursor: bool)
    requires b.Valid()
    ensures Follows(b, SelectCandidate(b, index, candidate, moveCursor).0)
    ensures Follows(b, CancelSelection(b, index).0)
  {
    if index < |b.segments| {
      var chosen := b.segments[index].(selectedIndex := candidate, manuallyChosen := true, phraseOverrideChosen := false);
      ReplacedFollows(b, index, chosen, Some(index), None);
      var cancelled := b.segments[index].(selectedIndex := 0, manuallyChosen := false, phraseOverrideChosen := false);
      ReplacedFollows(b, index, cancelled, Some(index), None);
    }
  }

  lemma MoveFollows(b: Composition, delta: int)
    requires b.Valid()
    ensures Follows(b, MoveLeft(b).0) && Follows(b, MoveRight(b).0)
    ensures Follows(b, ExtendSelection(b, delta).0) && Follows(b, ClearSelection(b).0)
  {
  }

  lemma ClearFollows(b: Composition)
    requires b.Valid()
    ensures Follows(b, Clear(b)) && Follows(b, ClearUnfinished(b).0)
  {
    if b.caret > 0 {
      RemovedFollows(b, b.caret - 1);
    }
    RemovedFollows(b, b.caret);
    RemovedFollows(b, FirstUnfinished(b.segments));
  }

  lemma LiteralFollows(b: Composition, value: Char)
    requires b.Valid()
    ensures Follows(b, AddLiteral(b, value).0)
  {
    if value != 0 {
      InsertedFollows(b, NewLiteral(value), None);
    }
  }

  lemma EditFollows(b: Composition, e: Edit)
    requires b.Valid()
    ensures Follows(b, Edited(b, e))
  {
    hide AddBopomofo, AddKey, AddKeys, AddLiteral, Backspace, MoveLeft, MoveRight, ExtendSelection, ClearSelection, Clear,
      ClearUnfinished, SetCandidates, RefreshCandidates, ApplyPhrase, ClearPins, SelectCandidate, CancelSelection, RemoveSegment, Follows;
    match e
    case Bopomofo(symbol) => AddBopomofoFollows(b, symbol);
    case Type(key, layout, acceptUppercase) => AddKeyFollows(b, key, layout, acceptUppercase);
    case TypeAll(keys, toneKey, layout, strict) => AddKeysFollows(b, keys, toneKey, layout, strict);
    case Literal(value) => LiteralFollows(b, value);
    case DeleteBack => BackspaceFollows(b);
    case DeleteNext =>
      NothingFollows(b);
      RemovedFollows(b, b.caret);
    case Left => MoveFollows(b, 0);
    case Right => MoveFollows(b, 0);
    case Mark(delta) => MoveFollows(b, delta);
    case Unmark => MoveFollows(b, 0);
    case Reset => ClearFollows(b);
    case DropUnfinished => ClearFollows(b);
    case Offer(index, candidates, preserve) => CandidatesFollow(b, index, candidates, preserve);
    case Refresh(index, candidates) => CandidatesFollow(b, index, candidates, true);
    case Pin(offset, phrase) => PinsFollow(b, offset, phrase);
    case Unpin(offset, count) => UnpinsFollow(b, offset, count);
    case Choose(index, candidate, moveCursor) => ChoiceFollows(b, index, candidate, moveCursor);
    case Cancel(index) => ChoiceFollows(b, index, 0, false);
    case Remove(index) => RemovedFollows(b, index);
  }

  /** `states` is a run: it starts valid, and each state is the edit of the one before. */
  ghost predicate IsRun(states: seq<Composition>, edits: seq<Edit>) {
    |states| == |edits| + 1 && states[0].Valid() &&
    forall i :: 0 <= i < |edits| ==> states[i].caret <= |states[i].segments| && states[i + 1] == Edited(states[i], edits[i])
  }

  lemma {:induction false} RunFollows(states: seq<Composition>, edits: seq<Edit>, i: nat, j: nat)
    requires IsRun(states, edits) && i <= j < |states|
    ensures states[i].Valid() && Follows(states[i], states[j])
    decreases j
  {
    if j > 0 {
      RunFollows(states, edits, if i < j then i else j - 1, j - 1);
      EditFollows(states[j - 1], edits[j - 1]);
      assert states[j] == Edited(states[j - 1], edits[j - 1]);
    }
  }

  /** Over every run, the composition stays valid and equal revisions mean equal segments and caret. */
  lemma RevisionIdentifiesComposition(states: seq<Composition>, edits: seq<Edit>, i: nat, j: nat)
    requires IsRun(states, edits) && i < |states| && j < |states|
    ensures states[i].Valid()
    ensures states[i].revision == states[j].revision ==> states[i].segments == states[j].segments && states[i].caret == states[j].caret
  {
    RunFollows(states, edits, i, if i <= j then j else i);
    RunFollows(states, edits, j, if j <= i then i else j);
  }
}
