/** The pending keys of an input session, their preview, and settling it (engine/src/input/input_processor.cpp,
    input_session.hpp and pending_token.hpp). */
module MixedSession {
  import opened Wrappers
  import opened Sequences
  import opened Utf
  import opened Keymap
  import opened Compositions
  import opened CompositionBuffers
  import opened MixedPaths
  import opened MixedDecoder
  import opened MixedApply

  // ----- candidate entries -----

  datatype CandidateEntry = CandidateEntry(pathIndex: nat, charIndex: nat, text: Text)

  predicate ClosesInBopomofo(path: MixedPath) {
    path.segments != [] && path.segments[|path.segments| - 1].kind == Bopomofo
  }

  function LastSegment(path: MixedPath): MixedSegment
    requires path.segments != []
  {
    path.segments[|path.segments| - 1]
  }

  /** The path shown for its characters: the preferred one if it closes in Bopomofo, otherwise one that closes
      with the longest syllable, and among those one with the highest score. */
  ghost predicate Expands(result: MixedDecodeResult, preferred: Option<nat>, best: nat) {
    && 1 <= best < |result.paths| && ClosesInBopomofo(result.paths[best])
    && if preferred.Some? && 0 < preferred.value < |result.paths| && ClosesInBopomofo(result.paths[preferred.value])
       then best == preferred.value
       else forall i :: 1 <= i < |result.paths| && ClosesInBopomofo(result.paths[i]) ==>
              LastSegment(result.paths[best]).begin < LastSegment(result.paths[i]).begin ||
              (LastSegment(result.paths[best]).begin == LastSegment(result.paths[i]).begin && result.paths[best].score >= result.paths[i].score)
  }

  /** The text of a path closing in Bopomofo with candidate `charIndex` of its last segment. */
  function EntryText(path: MixedPath, charIndex: nat): Text
    requires ClosesInBopomofo(path) && charIndex < |LastSegment(path).candidates|
  {
    Rendering(path.segments[..|path.segments| - 1]) + Units(LastSegment(path).candidates[charIndex])
  }

  /** An entry behind the raw one shows its path with the character it names. */
  ghost predicate EntryShows(entry: CandidateEntry, result: MixedDecodeResult, best: nat) {
    entry.pathIndex == best < |result.paths| && ClosesInBopomofo(result.paths[best]) &&
    entry.charIndex < |LastSegment(result.paths[best]).candidates| &&
    entry.text == EntryText(result.paths[best], entry.charIndex)
  }

  /** The first `count` characters of the path are all among the texts. */
  ghost predicate Offers(entries: seq<CandidateEntry>, path: MixedPath, count: nat) {
    ClosesInBopomofo(path) && count <= |LastSegment(path).candidates| &&
    forall c :: 0 <= c < count ==> HasText(entries, EntryText(path, c))
  }

  ghost predicate HasText(entries: seq<CandidateEntry>, text: Text) {
    exists k :: 0 <= k < |entries| && entries[k].text == text
  }

  ghost predicate DistinctTexts(entries: seq<CandidateEntry>) {
    forall i, j :: 0 <= i < j < |entries| ==> entries[i].text != entries[j].text
  }

  method FindBest(result: MixedDecodeResult, preferred: Option<nat>) returns (best: Option<nat>)
    ensures best.Some? ==> Expands(result, preferred, best.value)
    ensures best.None? ==> forall i :: 1 <= i < |result.paths| ==> !ClosesInBopomofo(result.paths[i])
  {
    best := None;
    if preferred.Some? && preferred.value > 0 && preferred.value < |result.paths| {
      if ClosesInBopomofo(result.paths[preferred.value]) {
        return preferred;
      }
    }
    var bestBegin, bestScore := 0, -1.0;
    var i := 1;
    while i < |result.paths|
      invariant 1 <= i && (i <= |result.paths| || i == 1)
      invariant best.None? ==> forall k :: 1 <= k < i && k < |result.paths| ==> !ClosesInBopomofo(result.paths[k])
      invariant best.Some? ==> 1 <= best.value < i <= |result.paths| && ClosesInBopomofo(result.paths[best.value])
      invariant best.Some? ==> bestBegin == LastSegment(result.paths[best.value]).begin && bestScore == result.paths[best.value].score
      invariant best.Some? ==> forall k :: 1 <= k < i && ClosesInBopomofo(result.paths[k]) ==>
        bestBegin < LastSegment(result.paths[k]).begin || (bestBegin == LastSegment(result.paths[k]).begin && bestScore >= result.paths[k].score)
    {
      var path := result.paths[i];
      if ClosesInBopomofo(path) {
        var begin := LastSegment(path).begin;
        if best.None? || begin < bestBegin || (begin == bestBegin && path.score > bestScore) {
          best, bestBegin, bestScore := Some(i), begin, path.score;
        }
      }
      i := i + 1;
    }
  }

  lemma PrefixRenders(segments: seq<MixedSegment>, i: nat)
    requires i < |segments|
    ensures Rendering(segments[..i + 1]) == Rendering(segments[..i]) + RenderSegment(segments[i])
  {
    hide Rendering, RenderSegment;
    PushOne(segments, i);
    Push(segments[..i], segments[i]);
  }

  method RenderPrefix(segments: seq<MixedSegment>, count: nat) returns (prefix: Text)
    requires count <= |segments|
    ensures prefix == Rendering(segments[..count])
  {
    hide RenderSegment;
    prefix := [];
    var i := 0;
    while i < count
      invariant 0 <= i <= count && prefix == Rendering(segments[..i])
    {
      PrefixRenders(segments, i);
      prefix := prefix + RenderSegment(segments[i]);
      i := i + 1;
    }
  }

  /** The displayable entries: the raw input, then one per character of the best closing path, one page at most. */
  method ExpandCandidates(result: MixedDecodeResult, pageSize: nat, preferred: Option<nat>)
    returns (entries: seq<CandidateEntry>, ghost best: nat)
    ensures |entries| <= pageSize && DistinctTexts(entries)
    ensures pageSize == 0 || result.paths == [] <==> entries == []
    ensures entries != [] ==> entries[0] == CandidateEntry(0, 0, result.raw)
    ensures |entries| > 1 ==> Expands(result, preferred, best)
    ensures entries != [] && (exists i :: 1 <= i < |result.paths| && ClosesInBopomofo(result.paths[i])) ==>
      Expands(result, preferred, best) &&
      (|entries| == pageSize || Offers(entries, result.paths[best], |LastSegment(result.paths[best]).candidates|))
    ensures forall k :: 1 <= k < |entries| ==> EntryShows(entries[k], result, best)
    ensures forall i, j :: 1 <= i < j < |entries| ==> entries[i].charIndex < entries[j].charIndex
  {
    hide EntryText;
    best := 0;
    if pageSize == 0 || result.paths == [] {
      return [], best;
    }
    entries := [CandidateEntry(0, 0, result.raw)];
    var found := FindBest(result, preferred);
    if found.None? {
      return;
    }
    best := found.value;
    entries := ExpandPath(result, found.value, pageSize);
  }

  /** The entries so far: the raw input, then entries of the path with ascending characters, no text twice, and
      every text of the first `charIndex` characters. */
  ghost predicate Growing(entries: seq<CandidateEntry>, seen: set<Text>, result: MixedDecodeResult, best: nat, charIndex: nat) {
    && best < |result.paths| && |entries| >= 1
    && entries[0] == CandidateEntry(0, 0, result.raw) && DistinctTexts(entries)
    && (forall t :: t in seen <==> HasText(entries, t))
    && Offers(entries, result.paths[best], charIndex)
    && (forall k :: 1 <= k < |entries| ==> EntryShows(entries[k], result, best) && entries[k].charIndex < charIndex)
    && (forall i, j :: 1 <= i < j < |entries| ==> entries[i].charIndex < entries[j].charIndex)
  }

  lemma GrowingPush(entries: seq<CandidateEntry>, seen: set<Text>, result: MixedDecodeResult, best: nat, charIndex: nat, text: Text)
    requires Growing(entries, seen, result, best, charIndex) && charIndex < |LastSegment(result.paths[best]).candidates|
    requires text == EntryText(result.paths[best], charIndex) && text !in seen
    ensures Growing(entries + [CandidateEntry(best, charIndex, text)], seen + {text}, result, best, charIndex + 1)
  {
    hide EntryText;
    var entry := CandidateEntry(best, charIndex, text);
    var more := entries + [entry];
    OffersPush(entries, result.paths[best], charIndex, entry);
    assert forall k :: 0 <= k < |entries| ==> more[k] == entries[k];
    forall k | 0 <= k < |entries| ensures entries[k].text != text {
      assert HasText(entries, entries[k].text);
    }
    forall t | HasText(more, t) ensures t in seen + {text} {
      var k :| 0 <= k < |more| && more[k].text == t;
      assert k < |entries| ==> HasText(entries, t);
    }
  }

  lemma GrowingSkip(entries: seq<CandidateEntry>, seen: set<Text>, result: MixedDecodeResult, best: nat, charIndex: nat, text: Text)
    requires Growing(entries, seen, result, best, charIndex) && charIndex < |LastSegment(result.paths[best]).candidates|
    requires text == EntryText(result.paths[best], charIndex) && text in seen
    ensures Growing(entries, seen, result, best, charIndex + 1)
  {
    hide EntryText, HasText;
  }

  lemma GrowingStart(result: MixedDecodeResult, best: nat)
    requires best < |result.paths| && ClosesInBopomofo(result.paths[best])
    ensures Growing([CandidateEntry(0, 0, result.raw)], {result.raw}, result, best, 0)
  {
    var entries := [CandidateEntry(0, 0, result.raw)];
    assert entries[0].text == result.raw;
  }

  /** Behind the raw input, one entry per character of the closing syllable until the page is full. */
  method ExpandPath(result: MixedDecodeResult, best: nat, pageSize: nat) returns (entries: seq<CandidateEntry>)
    requires best < |result.paths| && ClosesInBopomofo(result.paths[best]) && pageSize > 0
    ensures 1 <= |entries| <= pageSize
    ensures exists seen, count :: (Growing(entries, seen, result, best, count) &&
                                   (|entries| == pageSize || count == |LastSegment(result.paths[best]).candidates|))
  {
    hide EntryText, Growing;
    var path := result.paths[best];
    var prefix := RenderPrefix(path.segments, |path.segments| - 1);
    var tail := LastSegment(path);
    var seen := {result.raw};
    var charIndex := 0;
    entries := [CandidateEntry(0, 0, result.raw)];
    GrowingStart(result, best);
    while charIndex < |tail.candidates| && |entries| < pageSize
      invariant 0 <= charIndex <= |tail.candidates| && 1 <= |entries| <= pageSize
      invariant Growing(entries, seen, result, best, charIndex)
    {
      var text := prefix + Units(tail.candidates[charIndex]);
      SameEntryText(path, charIndex, prefix);
      if text !in seen {
        GrowingPush(entries, seen, result, best, charIndex, text);
        seen := seen + {text};
        entries := entries + [CandidateEntry(best, charIndex, text)];
      } else {
        GrowingSkip(entries, seen, result, best, charIndex, text);
      }
      charIndex := charIndex + 1;
    }
    assert Growing(entries, seen, result, best, charIndex);
  }

  lemma SameEntryText(path: MixedPath, charIndex: nat, prefix: Text)
    requires ClosesInBopomofo(path) && charIndex < |LastSegment(path).candidates|
    requires prefix == Rendering(path.segments[..|path.segments| - 1])
    ensures EntryText(path, charIndex) == prefix + Units(LastSegment(path).candidates[charIndex])
  {
  }

  lemma OffersPush(entries: seq<CandidateEntry>, path: MixedPath, count: nat, entry: CandidateEntry)
    requires Offers(entries, path, count) && count < |LastSegment(path).candidates| && entry.text == EntryText(path, count)
    ensures Offers(entries + [entry], path, count + 1)
    ensures forall t :: HasText(entries, t) || t == entry.text ==> HasText(entries + [entry], t)
  {
    hide EntryText;
    var more := entries + [entry];
    assert more[|entries|].text == entry.text;
    forall t | HasText(entries, t) ensures HasText(more, t) {
      var k :| 0 <= k < |entries| && entries[k].text == t;
      assert more[k].text == t;
    }
  }

  lemma {:induction false} ShownSplits(segments: seq<MixedSegment>, charIndex: nat)
    requires segments != [] && segments[|segments| - 1].kind == Bopomofo && charIndex < |segments[|segments| - 1].candidates|
    requires forall k :: 0 <= k < |segments| && segments[k].kind == Bopomofo ==> segments[k].candidates != []
    ensures ShownFirst(segments, |segments|, charIndex) ==
            Rendering(segments[..|segments| - 1]) + Units(segments[|segments| - 1].candidates[charIndex])
  {
    ShownIsRendering(segments, |segments| - 1, charIndex);
  }

  /** Selecting a displayed entry makes the composition exactly its text longer, when no code point 0 is involved. */
  lemma {:induction false} EntryIsResult(b: Composition, entry: CandidateEntry, result: MixedDecodeResult, best: nat, raw: Text, layout: Layout,
                      spaceTone: bool, lookup: Text -> seq<Char>, moveCursor: bool)
    requires b.Valid() && ReadyForKeys(b) && Decodes(result, raw, layout, spaceTone, lookup) && 1 <= best
    requires EntryShows(entry, result, best)
    ensures var segments := result.paths[best].segments;
      var r := ApplyFirst(b, segments, |segments|, entry.charIndex, layout, moveCursor);
      r.1 && (Rendered(r.0.segments) == Rendered(b.segments) + entry.text <==> PathNulFree(segments, entry.charIndex))
  {
    hide IsEdge, Rendered, ReadyForKeys, Tiles, PathScore, Rendering, ApplyFirst, ShownFirst, PathNulFree;
    var path := result.paths[best];
    PreviewIsResult(b, path, entry.charIndex, raw, layout, spaceTone, lookup, moveCursor);
    forall k | 0 <= k < |path.segments| ensures IsEdge(path.segments[k], raw, layout, spaceTone, lookup) {
      assert path.segments[k] in path.segments;
    }
    CandidatesExist(path.segments, raw, layout, spaceTone, lookup);
    ShownSplits(path.segments, entry.charIndex);
  }

  // ----- the session -----

  class InputSession {
    var buffer: CompositionBuffer
    var pendingRaw: Text
    var pendingLayout: Layout
    var pendingRevision: nat
    var decision: MixedDecodeResult
    var previewPath: nat
    var previewCharacter: nat
    var sourceRevision: nat
    const lookup: Text -> seq<Char>

    /** Whether the decision was made for the pending keys as they are. */
    ghost predicate Current()
      reads this
    {
      decision.raw != [] && sourceRevision == pendingRevision
    }

    /** A current decision decodes exactly the pending keys, and its preview is one of its paths. */
    ghost predicate Valid()
      reads this, buffer
    {
      && buffer.Valid()
      && sourceRevision <= pendingRevision
      && (Current() ==>
            && (Decodes(decision, pendingRaw, pendingLayout, false, lookup) || Decodes(decision, pendingRaw, pendingLayout, true, lookup))
            && previewPath < |decision.paths| && previewCharacter == 0)
    }

    function PendingRenderedText(): Text
      reads this
    {
      if pendingRaw == [] then []
      else if decision.raw == [] || sourceRevision != pendingRevision || decision.raw != pendingRaw || previewPath >= |decision.paths|
      then pendingRaw
      else decision.paths[previewPath].rendered
    }

    /** What the preedit shows: the composition, then the preview of the pending keys. */
    function CurrentPreedit(): Text
      reads this, buffer
    {
      Rendered(buffer.segments) + PendingRenderedText()
    }

    constructor (lookup: Text -> seq<Char>)
      ensures Valid() && fresh(buffer) && pendingRaw == [] && buffer.Value() == EMPTY && this.lookup == lookup
    {
      buffer := new CompositionBuffer();
      pendingRaw, pendingLayout, pendingRevision := [], Standard, 0;
      decision, previewPath, previewCharacter, sourceRevision := MixedDecodeResult([], []), 0, 0, 0;
      this.lookup := lookup;
    }

    // How the pending input and its preview come about: the key routing of the source calls these and is not part
    // of this model.

    method PushPending(key: Unit, layout: Layout)
      requires Valid()
      modifies this
      ensures Valid() && pendingRaw == old(pendingRaw) + [key] && buffer == old(buffer) && !Current()
      ensures pendingLayout == if old(pendingRaw) == [] then layout else old(pendingLayout)
    {
      if pendingRaw == [] {
        pendingLayout := layout;
      }
      pendingRaw := pendingRaw + [key];
      pendingRevision := pendingRevision + 1;
    }

    method PopPending()
      requires Valid()
      modifies this
      ensures Valid() && buffer == old(buffer)
      ensures pendingRaw == if old(pendingRaw) == [] then [] else old(pendingRaw)[..|old(pendingRaw)| - 1]
      ensures old(pendingRaw) != [] ==> !Current()
    {
      if pendingRaw == [] {
        return;
      }
      pendingRaw := pendingRaw[..|pendingRaw| - 1];
      pendingRevision := pendingRevision + 1;
    }

    method ClearPending()
      modifies this`pendingRaw, this`pendingLayout, this`pendingRevision
      ensures pendingRaw == [] && pendingLayout == Standard && pendingRevision == old(pendingRevision) + 1
    {
      pendingRaw, pendingLayout, pendingRevision := [], Standard, pendingRevision + 1;
    }

    method ClearDecision()
      modifies this`decision, this`previewPath, this`previewCharacter, this`sourceRevision
      ensures decision.raw == [] && sourceRevision == 0
    {
      decision, previewPath, previewCharacter, sourceRevision := MixedDecodeResult([], []), 0, 0, 0;
    }

    /** Shows a decoded path as the preview; the routing that is not part of this model calls it. */
    method SetMixedPreview(result: MixedDecodeResult, path: nat, ghost spaceTone: bool)
      requires Valid() && Decodes(result, pendingRaw, pendingLayout, spaceTone, lookup) && path < |result.paths|
      modifies this
      ensures Valid() && buffer == old(buffer) && pendingRaw == old(pendingRaw)
      ensures pendingRaw != [] ==> Current() && PendingRenderedText() == result.paths[path].rendered
    {
      decision, sourceRevision, previewPath, previewCharacter := result, pendingRevision, path, 0;
    }

    /** Applies a path to a copy of the buffer, which replaces the buffer only when every step succeeds. */
    method ApplyMixedPath(path: MixedPath, charIndex: nat, moveCursor: bool) returns (ok: bool)
      requires Valid()
      modifies this
      ensures Valid()
      ensures ok ==> (buffer.Value(), true) == ApplyFirst(old(buffer.Value()), path.segments, |path.segments|, charIndex, old(pendingLayout), moveCursor)
      ensures ok ==> fresh(buffer) && pendingRaw == []
      ensures !ok ==> !ApplyFirst(old(buffer.Value()), path.segments, |path.segments|, charIndex, old(pendingLayout), moveCursor).1
      ensures !ok ==> buffer == old(buffer) && unchanged(this)
    {
      hide ApplySegment, ApplyFirst, Decodes, StoredFirst, Stored;
      ghost var b := buffer.Value();
      var next := new CompositionBuffer.Copy(buffer);
      var i := 0;
      FirstStep(b, path.segments, 0, charIndex, pendingLayout, moveCursor);
      while i < |path.segments|
        invariant 0 <= i <= |path.segments| && next.Valid() && fresh(next)
        invariant (next.Value(), true) == ApplyFirst(b, path.segments, i, charIndex, pendingLayout, moveCursor)
        modifies next
      {
        FirstStep(b, path.segments, i + 1, charIndex, pendingLayout, moveCursor);
        var applied := ApplyOne(next, path.segments[i], if i + 1 == |path.segments| then charIndex else 0, pendingLayout, moveCursor);
        if !applied {
          FailedStays(b, path.segments, i + 1, |path.segments|, charIndex, pendingLayout, moveCursor);
          return false;
        }
        i := i + 1;
      }
      buffer := next;
      ClearPending();
      ClearDecision();
      return true;
    }

    method SettlePendingAsLiterals()
      requires Valid()
      modifies this, buffer
      ensures Valid() && pendingRaw == [] && buffer == old(buffer)
      ensures buffer.Value() == AddLiterals(old(buffer.Value()), old(pendingRaw))
    {
      LiteralLoop(buffer, pendingRaw);
      ClearPending();
      ClearDecision();
    }

    /** Settling writes the preview into the composition. At the end of a settled composition this cannot fail,
        and the composition is then exactly what the preedit showed, when no code point 0 is involved. */
    method SettlePendingPreview(moveCursor: bool) returns (ok: bool)
      requires Valid()
      modifies this, buffer
      ensures Valid()
      ensures !ok ==> unchanged(this) && unchanged(buffer)
      ensures ok ==> pendingRaw == []
      ensures old(ReadyForKeys(buffer.Value())) ==> ok
      ensures old(ReadyForKeys(buffer.Value())) ==>
        (Rendered(buffer.segments) == old(CurrentPreedit()) <==> old(PreviewNulFree(this)))
    {
      hide Decodes, ApplyFirst, AddLiterals, Rendered, ReadyForKeys, PathNulFree;
      ghost var b := buffer.Value();
      ghost var applies := Current() && previewPath > 0;
      if decision.raw != [] && sourceRevision == pendingRevision && previewPath > 0 && previewPath < |decision.paths| {
        if old(ReadyForKeys(buffer.Value())) {
          PreviewSettles(b, decision, previewPath, pendingRaw, pendingLayout, lookup, moveCursor);
        }
        ok := ApplyMixedPath(decision.paths[previewPath], previewCharacter, moveCursor);
        return;
      }
      if old(ReadyForKeys(buffer.Value())) {
        LiteralsSettle(b, pendingRaw);
        RawPreview(this);
      }
      SettlePendingAsLiterals();
      return true;
    }
  }

  /** Whether the preview of the session involves no code point 0. */
  ghost predicate PreviewNulFree(session: InputSession)
    reads session
  {
    if session.Current() && 0 < session.previewPath < |session.decision.paths|
    then PathNulFree(session.decision.paths[session.previewPath].segments, 0)
    else 0 !in session.pendingRaw
  }

  lemma RawPreview(session: InputSession)
    requires session.Valid() && !(session.Current() && 0 < session.previewPath < |session.decision.paths|)
    ensures session.PendingRenderedText() == session.pendingRaw
  {
    hide PathOf;
  }

  lemma {:induction false} LiteralsSettle(b: Composition, raw: Text)
    requires b.Valid() && ReadyForKeys(b)
    ensures AddLiterals(b, raw).Valid()
    ensures Rendered(AddLiterals(b, raw).segments) == Rendered(b.segments) + raw <==> 0 !in raw
  {
    LiteralsAppend(b, raw);
    WithoutNulLength(raw);
    SameTail(Rendered(b.segments), WithoutNul(raw), raw);
  }

  lemma {:induction false} PreviewSettles(b: Composition, result: MixedDecodeResult, preview: nat, raw: Text, layout: Layout, lookup: Text -> seq<Char>, moveCursor: bool)
    requires b.Valid() && ReadyForKeys(b) && 0 < preview < |result.paths|
    requires Decodes(result, raw, layout, false, lookup) || Decodes(result, raw, layout, true, lookup)
    ensures var path := result.paths[preview];
      var r := ApplyFirst(b, path.segments, |path.segments|, 0, layout, moveCursor);
      r.1 && (Rendered(r.0.segments) == Rendered(b.segments) + path.rendered <==> PathNulFree(path.segments, 0))
    ensures result.raw == raw
  {
    hide ApplyFirst, Rendered, ReadyForKeys, PathNulFree, PathOf;
    var spaceTone := !Decodes(result, raw, layout, false, lookup);
    FirstChoiceExists(result.paths[preview], raw, layout, spaceTone, lookup);
    PreviewIsResult(b, result.paths[preview], 0, raw, layout, spaceTone, lookup, moveCursor);
  }

  lemma FirstChoiceExists(path: MixedPath, raw: Text, layout: Layout, spaceTone: bool, lookup: Text -> seq<Char>)
    requires PathOf(path, raw, layout, spaceTone, lookup)
    ensures ChoiceExists(path.segments, 0)
  {
    hide ReplayedReading, Tiles, Rendering, PathScore;
    if path.segments != [] {
      assert path.segments[|path.segments| - 1] in path.segments;
    }
  }

  lemma {:induction false} FailedStays(b: Composition, segments: seq<MixedSegment>, count: nat, total: nat, charIndex: nat, layout: Layout, moveCursor: bool)
    requires count <= total <= |segments| && !ApplyFirst(b, segments, count, charIndex, layout, moveCursor).1
    ensures !ApplyFirst(b, segments, total, charIndex, layout, moveCursor).1
    decreases total
  {
    hide ApplySegment;
    if count < total {
      FailedStays(b, segments, count, total - 1, charIndex, layout, moveCursor);
    }
  }

  method LiteralLoop(buffer: CompositionBuffer, raw: Text)
    requires buffer.Valid()
    modifies buffer
    ensures buffer.Valid() && buffer.Value() == AddLiterals(old(buffer.Value()), raw)
  {
    var k := 0;
    Whole(raw);
    while k < |raw|
      invariant 0 <= k <= |raw| && buffer.Valid()
      invariant AddLiterals(old(buffer.Value()), raw) == AddLiterals(buffer.Value(), raw[k..])
    {
      PushOne(raw, k);
      var ok := buffer.AddLiteral(raw[k]);
      k := k + 1;
    }
    Whole(raw);
  }

  /** One segment of a path on the buffer. */
  method ApplyOne(next: CompositionBuffer, s: MixedSegment, choice: nat, layout: Layout, moveCursor: bool) returns (ok: bool)
    requires next.Valid()
    modifies next
    ensures next.Valid()
    ensures ok == ApplySegment(old(next.Value()), s, choice, layout, moveCursor).1
    ensures ok ==> next.Value() == ApplySegment(old(next.Value()), s, choice, layout, moveCursor).0
  {
    hide AddKeys, SetCandidates, SelectCandidate, AddLiterals;
    if s.kind == Bopomofo {
      var result := next.AddBopomofoKeys(s.bodyKeys, s.toneKey, layout, true);
      if result.None? || !result.value.completed {
        return false;
      }
      var offered := next.SetSegmentCandidates(result.value.segmentIndex, s.candidates, true);
      if choice >= |s.candidates| {
        return false;
      }
      ok := next.SelectCandidate(result.value.segmentIndex, choice, moveCursor);
    } else {
      LiteralLoop(next, s.raw);
      ok := true;
    }
  }
}
