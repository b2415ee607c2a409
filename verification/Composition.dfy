/** The composition as a value, and what each editing operation makes of it
    (engine/src/buffer/composition_buffer.cpp). CompositionBuffer.dfy proves the methods against these
    functions; the lemmas here and in later modules are about the functions. */
module Compositions {
  import opened Wrappers
  import opened Sequences
  import opened Utf
  import opened Syllables
  import opened Keymap

  type Text = seq<Unit>
  type Char = nat

  /** A code point as UTF-16 units; the source casts each half to 16 bits. */
  function Units(value: Char): Text {
    if value <= 0xFFFF then [value]
    else [(0xD800 + (value - 0x10000) / 1024) % 0x1_0000, (0xDC00 + (value - 0x10000) % 1024) % 0x1_0000]
  }

  datatype Segment = Segment(
    syllable: Syllable,
    literal: Char,
    candidates: seq<Char>,
    selectedIndex: nat,
    manuallyChosen: bool,
    phraseOverrideChosen: bool,
    readingFinalized: bool,
    alternativeReadings: seq<Text>)
  {
    predicate Complete() {
      readingFinalized && syllable.Complete()
    }

    predicate Empty() {
      syllable.Empty()
    }

    predicate VisibleCandidate() {
      literal != 0 || (Complete() && selectedIndex < |candidates|)
    }

    function SelectedCandidate(): Char {
      if literal != 0 then literal
      else if VisibleCandidate() then candidates[selectedIndex]
      else 0
    }

    function Reading(): Text {
      if literal != 0 then [] else syllable.Text()
    }

    function RenderedText(): Text {
      if !VisibleCandidate() then Reading()
      else if SelectedCandidate() == 0 then []
      else Units(SelectedCandidate())
    }

    predicate Unfinished() {
      !readingFinalized && !Empty()
    }

    predicate ExplicitlyChosen() {
      manuallyChosen && !phraseOverrideChosen
    }

    predicate Hollow() {
      literal == 0 && Empty()
    }

    predicate Sound() {
      !Hollow() && syllable.Proper() &&
      (phraseOverrideChosen ==> manuallyChosen && Complete()) && (readingFinalized ==> syllable.Complete()) &&
      (literal != 0 ==> Empty() && !readingFinalized)
    }
  }

  datatype Composition = Composition(
    segments: seq<Segment>,
    caret: nat,
    revision: nat,
    lastEdited: Option<nat>,
    anchor: Option<nat>)
  {
    /** What every operation keeps. */
    ghost predicate Valid() {
      && caret <= |segments|
      && (anchor.Some? ==> anchor.value <= |segments|)
      && (lastEdited.Some? ==> lastEdited.value < |segments|)
      && forall i :: 0 <= i < |segments| ==> segments[i].Sound()
    }
  }

  const EMPTY := Composition([], 0, 0, None, None)

  datatype InputResult = InputResult(segmentIndex: nat, completed: bool, naturalExtension: bool)

  function Touched(b: Composition): Composition {
    b.(revision := b.revision + 1)
  }

  function NewReading(syllable: Syllable, finalized: bool, alternatives: seq<Text>): Segment {
    Segment(syllable, 0, [], 0, false, false, finalized, alternatives)
  }

  function NewLiteral(symbol: Char): Segment {
    Segment(NO_SYLLABLE, symbol, [], 0, false, false, false, [])
  }

  /** The composition with `segment` inserted at the caret, which moves behind it. */
  function Inserted(b: Composition, segment: Segment, lastEdited: Option<nat>): Composition
    requires b.caret <= |b.segments|
  {
    Composition(b.segments[..b.caret] + [segment] + b.segments[b.caret..], b.caret + 1, b.revision + 1, lastEdited, None)
  }

  function Replaced(b: Composition, index: nat, segment: Segment): Composition
    requires index < |b.segments|
  {
    b.(segments := b.segments[index := segment], revision := b.revision + 1)
  }

  // ----- typing -----

  /** The segment before the caret, when a symbol may still change it. */
  predicate OpenBeforeCaret(b: Composition)
    requires b.caret <= |b.segments|
  {
    b.caret > 0 && !b.segments[b.caret - 1].VisibleCandidate() && !b.segments[b.caret - 1].readingFinalized
  }

  function AddBopomofo(b: Composition, symbol: Symbol): (Composition, bool)
    requires b.caret <= |b.segments|
  {
    var c := b.(anchor := None);
    if OpenBeforeCaret(b) && (Accepts(b.segments[b.caret - 1].syllable, symbol) || Overwrites(b.segments[b.caret - 1].syllable, symbol)) then
      var typed := Placed(b.segments[b.caret - 1].syllable, symbol);
      (Replaced(c, b.caret - 1, NewReading(typed, IsTone(symbol) && typed.Complete(), []))
         .(lastEdited := Some(b.caret - 1)), true)
    else if Accepts(NO_SYLLABLE, symbol) then
      var typed := Placed(NO_SYLLABLE, symbol);
      (Inserted(b, NewReading(typed, IsTone(symbol) && typed.Complete(), []), Some(b.caret)), true)
    else (c, false)
  }

  /** A key extends its segment naturally when it adds a symbol instead of replacing one. */
  predicate Natural(before: Syllable, layout: Layout, key: Key, acceptUppercase: bool) {
    match layout
    case Standard =>
      (match LookupKey(key, acceptUppercase)
       case None => false
       case Some(symbol) => Accepts(before, symbol))
    case Hsu => |Typed(before, layout, key, acceptUppercase).Text()| > |before.Text()|
  }

  function TypedSegment(before: Syllable, layout: Layout, key: Key, acceptUppercase: bool): Segment {
    var typed := Typed(before, layout, key, acceptUppercase);
    var completed := StatusAfter(before, layout, key, acceptUppercase) == Completed;
    NewReading(typed, completed, if completed then Alternatives(typed, layout) else [])
  }

  predicate ActiveBeforeCaret(b: Composition)
    requires b.caret <= |b.segments|
  {
    OpenBeforeCaret(b) && !b.segments[b.caret - 1].Empty()
  }

  function ActiveSyllable(b: Composition): Syllable
    requires b.caret <= |b.segments|
  {
    if ActiveBeforeCaret(b) then b.segments[b.caret - 1].syllable else NO_SYLLABLE
  }

  /** Storing what a key made of the active syllable: in place, or as a new segment at the caret. */
  function AddTyped(b: Composition, status: KeyStatus, segment: Segment, natural: bool): (r: (Composition, Option<InputResult>))
    requires b.caret <= |b.segments|
    ensures r.0.caret <= |r.0.segments|
  {
    if status == Rejected then (b.(anchor := None), None)
    else if ActiveBeforeCaret(b) then
      (Replaced(b.(anchor := None), b.caret - 1, segment).(lastEdited := Some(b.caret - 1)),
       Some(InputResult(b.caret - 1, status == Completed, natural)))
    else
      (Inserted(b, segment, Some(b.caret)), Some(InputResult(b.caret, status == Completed, natural)))
  }

  function AddKey(b: Composition, key: Key, layout: Layout, acceptUppercase: bool): (r: (Composition, Option<InputResult>))
    requires b.caret <= |b.segments|
    ensures r.0.caret <= |r.0.segments|
  {
    var before := ActiveSyllable(b);
    AddTyped(b, StatusAfter(before, layout, key, acceptUppercase), TypedSegment(before, layout, key, acceptUppercase),
             Natural(before, layout, key, acceptUppercase))
  }

  /** Typing `keys` one by one; stops at the first key that is rejected or, when `strict`, unnatural. */
  function AddBody(b: Composition, keys: seq<Unit>, layout: Layout, strict: bool): (r: (Composition, bool))
    requires b.caret <= |b.segments|
    ensures r.0.caret <= |r.0.segments|
    decreases |keys|
  {
    if keys == [] then (b, true)
    else
      var step := AddKey(b, keys[0], layout, true);
      if step.1.None? || (strict && !step.1.value.naturalExtension) then (step.0, false)
      else AddBody(step.0, keys[1..], layout, strict)
  }

  /** Whether a whole syllable may be typed at the caret. */
  predicate ReadyForKeys(b: Composition)
    requires b.caret <= |b.segments|
  {
    b.caret == |b.segments| &&
    (b.caret > 0 ==> b.segments[b.caret - 1].VisibleCandidate() || b.segments[b.caret - 1].readingFinalized)
  }

  /** Dropping what a failed syllable added. */
  function RolledBack(b: Composition, tried: Composition): Composition {
    Composition(if |tried.segments| > |b.segments| then tried.segments[..|b.segments|] else tried.segments, b.caret,
                tried.revision + 1, None, tried.anchor)
  }

  function AddKeys(b: Composition, keys: seq<Unit>, toneKey: Key, layout: Layout, strict: bool): (Composition, Option<InputResult>)
    requires b.caret <= |b.segments|
  {
    if !ReadyForKeys(b) then (b, None)
    else
      var body := AddBody(b, keys, layout, strict);
      if !body.1 then (RolledBack(b, body.0), None)
      else
        var toned := AddKey(body.0, toneKey, layout, true);
        if toned.1.None? || !toned.1.value.completed then (RolledBack(b, toned.0), None)
        else toned
  }

  function AddLiteral(b: Composition, symbol: Char): (Composition, bool)
    requires b.caret <= |b.segments|
  {
    if symbol == 0 then (b.(anchor := None), false)
    else (Inserted(b, NewLiteral(symbol), None), true)
  }

  // ----- deleting and moving -----

  function AtMost(n: nat, limit: nat): nat {
    if n > limit then limit else n
  }

  function RemoveSegment(b: Composition, index: nat): (Composition, bool) {
    if index >= |b.segments| then (b.(anchor := None), false)
    else
      var caret := if b.caret > index then b.caret - 1 else b.caret;
      var segments := b.segments[..index] + b.segments[index + 1..];
      (Composition(segments, AtMost(caret, |segments|), b.revision + 1, None, None), true)
  }

  function Backspace(b: Composition): (Composition, bool)
    requires b.caret <= |b.segments|
  {
    if b.caret == 0 then (b.(anchor := None), false)
    else
      var index := b.caret - 1;
      var segment := b.segments[index];
      var without := Composition(b.segments[..index] + b.segments[index + 1..], index, b.revision, None, None);
      var removed := !segment.Empty();
      if segment.VisibleCandidate() then (Touched(without), true)
      else if Popped(segment.syllable).Empty() then (if removed then Touched(without) else without, removed)
      else
        (Replaced(b, index, NewReading(Popped(segment.syllable), false, []))
           .(lastEdited := Some(index), anchor := None), true)
  }

  function DeleteForward(b: Composition): (Composition, bool) {
    if b.caret >= |b.segments| then (b, false) else RemoveSegment(b, b.caret)
  }

  function MoveLeft(b: Composition): (Composition, bool) {
    if b.caret == 0 then (b.(anchor := None), false)
    else (Touched(b.(caret := b.caret - 1, lastEdited := None, anchor := None)), true)
  }

  function MoveRight(b: Composition): (Composition, bool) {
    if b.caret >= |b.segments| then (b.(anchor := None), false)
    else (Touched(b.(caret := b.caret + 1, lastEdited := None, anchor := None)), true)
  }

  function ExtendSelection(b: Composition, delta: int): (Composition, bool) {
    if b.segments == [] || delta == 0 || (b.caret == 0 && delta < 0) || (b.caret >= |b.segments| && delta > 0) then (b, false)
    else
      var anchor := if b.anchor.Some? then b.anchor else Some(if b.caret < |b.segments| then b.caret else |b.segments|);
      (Touched(b.(caret := if delta < 0 then b.caret - 1 else b.caret + 1, lastEdited := None, anchor := anchor)), true)
  }

  function ClearSelection(b: Composition): (Composition, bool) {
    if b.anchor.None? then (b, false)
    else (Touched(b.(caret := b.anchor.value, anchor := None)), true)
  }

  function Clear(b: Composition): Composition {
    if b.segments == [] && b.caret == 0 then b.(anchor := None)
    else Composition([], 0, b.revision + 1, None, None)
  }

  /** The index of the first unfinished segment, the length when there is none. */
  function FirstUnfinished(segments: seq<Segment>): (n: nat)
    ensures n <= |segments|
    ensures n < |segments| ==> segments[n].Unfinished()
    ensures forall i :: 0 <= i < n ==> !segments[i].Unfinished()
  {
    if segments == [] || segments[0].Unfinished() then 0 else 1 + FirstUnfinished(segments[1..])
  }

  function ClearUnfinished(b: Composition): (Composition, bool)
    requires b.caret <= |b.segments|
  {
    if b.caret > 0 && b.segments[b.caret - 1].Unfinished() then RemoveSegment(b, b.caret - 1)
    else if b.caret < |b.segments| && b.segments[b.caret].Unfinished() then RemoveSegment(b, b.caret)
    else if FirstUnfinished(b.segments) == |b.segments| then (b, false)
    else RemoveSegment(b, FirstUnfinished(b.segments))
  }

  // ----- candidates -----

  function SetCandidates(b: Composition, index: nat, candidates: seq<Char>, preserve: bool): (Composition, bool) {
    if index >= |b.segments| || (preserve && b.segments[index].manuallyChosen) then (b, false)
    else
      (Replaced(b, index, b.segments[index].(candidates := candidates, selectedIndex := 0, manuallyChosen := false,
                                             phraseOverrideChosen := false)), true)
  }

  /** `list` without any `value`. */
  function Without(list: seq<Char>, value: Char): seq<Char> {
    if list == [] then []
    else if list[0] == value then Without(list[1..], value)
    else [list[0]] + Without(list[1..], value)
  }

  function RefreshedSegment(segment: Segment, candidates: seq<Char>): Segment {
    var pinned := segment.SelectedCandidate();
    segment.(candidates := if pinned != 0 then [pinned] + Without(candidates, pinned) else candidates, selectedIndex := 0)
  }

  function RefreshCandidates(b: Composition, index: nat, candidates: seq<Char>): (Composition, bool) {
    if index >= |b.segments| then (b, false)
    else if !b.segments[index].phraseOverrideChosen then SetCandidates(b, index, candidates, true)
    else (Replaced(b, index, RefreshedSegment(b.segments[index], candidates)), true)
  }

  predicate Pinnable(segment: Segment) {
    segment.Complete() && segment.literal == 0 && !segment.ExplicitlyChosen()
  }

  predicate PhraseFits(b: Composition, offset: nat, phrase: seq<Char>) {
    phrase != [] && offset + |phrase| <= |b.segments| &&
    forall i :: offset <= i < offset + |phrase| ==> Pinnable(b.segments[i])
  }

  /** The segment showing `char` first, pinned. */
  function PinnedTo(segment: Segment, value: Char): Segment {
    segment.(candidates := if segment.candidates == [] || segment.candidates[0] != value
                           then [value] + Without(segment.candidates, value) else segment.candidates,
             selectedIndex := 0, manuallyChosen := true, phraseOverrideChosen := true)
  }

  /** The segments with `phrase` pinned from `offset` on. */
  function PinnedSegments(segments: seq<Segment>, offset: nat, phrase: seq<Char>): (r: seq<Segment>)
    requires offset + |phrase| <= |segments|
    ensures |r| == |segments|
    ensures forall i :: 0 <= i < |segments| ==>
      r[i] == if offset <= i < offset + |phrase| then PinnedTo(segments[i], phrase[i - offset]) else segments[i]
  {
    seq(|segments|, i requires 0 <= i < |segments| =>
      if offset <= i < offset + |phrase| then PinnedTo(segments[i], phrase[i - offset]) else segments[i])
  }

  function ApplyPhrase(b: Composition, offset: nat, phrase: seq<Char>): (Composition, bool) {
    if !PhraseFits(b, offset, phrase) then (b, false)
    else
      var segments := PinnedSegments(b.segments, offset, phrase);
      (if segments == b.segments then b else Touched(b.(segments := segments)), true)
  }

  function Unpinned(segment: Segment): Segment {
    if segment.phraseOverrideChosen then segment.(manuallyChosen := false, phraseOverrideChosen := false) else segment
  }

  function UnpinnedSegments(segments: seq<Segment>, offset: nat, count: nat): (r: seq<Segment>)
    ensures |r| == |segments|
    ensures forall i :: 0 <= i < |segments| ==> r[i] == if offset <= i < offset + count then Unpinned(segments[i]) else segments[i]
  {
    seq(|segments|, i requires 0 <= i < |segments| => if offset <= i < offset + count then Unpinned(segments[i]) else segments[i])
  }

  function ClearPins(b: Composition, offset: nat, count: nat): (Composition, bool) {
    var segments := UnpinnedSegments(b.segments, offset, count);
    if segments == b.segments then (b, false) else (Touched(b.(segments := segments)), true)
  }

  function SelectCandidate(b: Composition, index: nat, candidate: nat, moveCursor: bool): (Composition, bool) {
    if index >= |b.segments| || candidate >= |b.segments[index].candidates| then (b, false)
    else
      (Replaced(b, index, b.segments[index].(selectedIndex := candidate, manuallyChosen := true, phraseOverrideChosen := false))
         .(caret := if moveCursor then index + 1 else b.caret, lastEdited := Some(index), anchor := None), true)
  }

  function CancelSelection(b: Composition, index: nat): (Composition, bool) {
    if index >= |b.segments| then (b, false)
    else if !b.segments[index].manuallyChosen && b.segments[index].selectedIndex == 0 then (b.(anchor := None), false)
    else
      (Replaced(b, index, b.segments[index].(selectedIndex := 0, manuallyChosen := false, phraseOverrideChosen := false))
         .(lastEdited := Some(index), anchor := None), true)
  }

  // ----- queries -----

  function Rendered(segments: seq<Segment>): Text {
    if segments == [] then [] else segments[0].RenderedText() + Rendered(segments[1..])
  }

  function RawComposition(segments: seq<Segment>): Text {
    if segments == [] then [] else segments[0].Reading() + RawComposition(segments[1..])
  }

  /** The indices of the complete segments from `from` on. */
  function CompletedFrom(segments: seq<Segment>, from: nat): seq<nat>
    requires from <= |segments|
    decreases |segments| - from
  {
    if from == |segments| then []
    else if segments[from].Complete() then [from] + CompletedFrom(segments, from + 1)
    else CompletedFrom(segments, from + 1)
  }

  lemma {:induction false} RenderedAppend(a: seq<Segment>, b: seq<Segment>)
    ensures Rendered(a + b) == Rendered(a) + Rendered(b)
  {
    if a == [] {
      NothingAdded(b);
    } else {
      RenderedAppend(a[1..], b);
      TailOfSum(a, b);
      Associative(a[0].RenderedText(), Rendered(a[1..]), Rendered(b));
    }
  }
}
