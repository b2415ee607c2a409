/** Decoding pending keys into complete output paths (engine/src/input/mixed_input_decoder.cpp). */
module MixedDecoder {
  import opened Wrappers
  import opened Sequences
  import opened Syllables
  import opened Keymap
  import opened Compositions
  import opened CompositionBuffers
  import opened MixedPaths
  import opened TopK
  import A = AsciiTokenizer

  const MAX_SYLLABLE_KEYS := 6

  predicate IsExplicitToneKey(key: Key, layout: Layout) {
    match layout
    case Hsu => key == 'd' as int || key == 'f' as int || key == 'j' as int || key == 's' as int
    case Standard =>
      var symbol := LookupKey(key, true);
      symbol.Some? && IsTone(symbol.value) && symbol.value != SPACE
  }

  /** The reading that typing `body` and then `toneKey` into an empty buffer completes, if it is one segment. */
  function ReplayedReading(body: Text, toneKey: Key, layout: Layout): Option<Text> {
    var r := AddKeys(EMPTY, body, toneKey, layout, true);
    if r.1.None? || !r.1.value.completed || |r.0.segments| != 1 then None else Some(r.0.segments[0].Reading())
  }

  /** A Bopomofo segment of `raw`: its keys replay to its reading, which has candidates. The last key is the
      tone, or the whole rest of the input is closed by a space that is not part of it. The score grows with the
      number of keys. */
  predicate IsSyllable(s: MixedSegment, raw: Text, layout: Layout, spaceTone: bool, lookup: Text -> seq<Char>) {
    && s.begin < s.end <= |raw|
    && ReplayedReading(s.bodyKeys, s.toneKey, layout) == Some(s.reading)
    && s.candidates == lookup(s.reading) != []
    && (|| (2 <= s.end - s.begin <= MAX_SYLLABLE_KEYS && IsExplicitToneKey(s.toneKey, layout) &&
            s.toneKey == raw[s.end - 1] && s.bodyKeys == raw[s.begin..s.end - 1] &&
            s.score == EXPLICIT_TONE_BOOST + BODY_CHAR_BOOST * |s.bodyKeys| as real)
        || (spaceTone && s.toneKey == SPACE && s.end == |raw| && s.bodyKeys == raw[s.begin..] &&
            s.score == SPACE_TONE_BOOST + BODY_CHAR_BOOST * |s.bodyKeys| as real))
  }

  /** What every edge of the decoder is. */
  predicate IsEdge(s: MixedSegment, raw: Text, layout: Layout, spaceTone: bool, lookup: Text -> seq<Char>) {
    s.begin < s.end <= |raw| && s.raw == raw[s.begin..s.end] &&
    (s.kind == Bopomofo ==> IsSyllable(s, raw, layout, spaceTone, lookup))
  }

  type Edges = seq<seq<MixedSegment>>

  ghost predicate EdgesOf(edges: Edges, raw: Text, layout: Layout, spaceTone: bool, lookup: Text -> seq<Char>) {
    |edges| == |raw| + 1 &&
    forall v, s :: 0 <= v < |edges| && s in edges[v] ==> s.begin == v && IsEdge(s, raw, layout, spaceTone, lookup)
  }

  /** `more` has every edge of `edges`. */
  ghost predicate Grows(edges: Edges, more: Edges) {
    |edges| == |more| && forall v, s :: 0 <= v < |edges| && s in edges[v] ==> s in more[v]
  }

  /** The single unit at `i` is an edge. */
  ghost predicate HasSingle(edges: Edges, i: nat) {
    i < |edges| && exists s :: s in edges[i] && s.end == i + 1 && s.kind != Bopomofo
  }

  ghost predicate HasEdge(edges: Edges, kind: SegmentKind, begin: nat, end: nat) {
    begin < |edges| && exists s :: s in edges[begin] && s.end == end && s.kind == kind
  }

  /** Whether [i, i + length) is a syllable closed by an explicit tone key. */
  predicate ToneEdgeDue(raw: Text, i: nat, length: nat, layout: Layout, lookup: Text -> seq<Char>) {
    2 <= length <= MAX_SYLLABLE_KEYS && i + length <= |raw| && IsExplicitToneKey(raw[i + length - 1], layout) &&
    var reading := ReplayedReading(raw[i..i + length - 1], raw[i + length - 1], layout);
    reading.Some? && lookup(reading.value) != []
  }

  /** Whether the keys from `i` on are a syllable closed by a space; a later start needs two keys. */
  predicate SpaceEdgeDue(raw: Text, i: nat, layout: Layout, lookup: Text -> seq<Char>) {
    i < |raw| && (i == 0 || |raw| - i >= 2) &&
    var reading := ReplayedReading(raw[i..], SPACE, layout);
    reading.Some? && lookup(reading.value) != []
  }

  /** The edges of the input: every one of them is sound, every position can be left by a single unit, and
      no Bopomofo syllable is missed. */
  ghost predicate EdgesComplete(edges: Edges, raw: Text, layout: Layout, spaceTone: bool, lookup: Text -> seq<Char>) {
    && EdgesOf(edges, raw, layout, spaceTone, lookup)
    && (forall i :: 0 <= i < |raw| ==> HasSingle(edges, i))
    && (forall i: nat, length: nat :: ToneEdgeDue(raw, i, length, layout, lookup) ==> HasEdge(edges, Bopomofo, i, i + length))
    && (forall i: nat :: spaceTone && SpaceEdgeDue(raw, i, layout, lookup) ==> HasEdge(edges, Bopomofo, i, |raw|))
  }

  function Added(edges: Edges, s: MixedSegment): Edges
    requires s.begin < |edges|
  {
    edges[s.begin := edges[s.begin] + [s]]
  }

  lemma AddedGrows(edges: Edges, s: MixedSegment, raw: Text, layout: Layout, spaceTone: bool, lookup: Text -> seq<Char>)
    requires EdgesOf(edges, raw, layout, spaceTone, lookup) && IsEdge(s, raw, layout, spaceTone, lookup)
    ensures EdgesOf(Added(edges, s), raw, layout, spaceTone, lookup)
    ensures Grows(edges, Added(edges, s)) && s in Added(edges, s)[s.begin]
  {
    var more := Added(edges, s);
    assert more[s.begin][|edges[s.begin]|] == s;
    forall v: nat, t: MixedSegment | v < |more| && t in more[v] ensures t.begin == v && IsEdge(t, raw, layout, spaceTone, lookup) {
      if !(v == s.begin && t == s) {
        assert t in edges[v];
      }
    }
  }

  lemma GrowsTrans(a: Edges, b: Edges, c: Edges)
    requires Grows(a, b) && Grows(b, c)
    ensures Grows(a, c)
  {
  }

  /** The entry behind `edge` that comes from `entry`. */
  function Next(entry: Entry, edge: MixedSegment): Entry {
    Entry(ExtendedScore(entry.path, entry.score, edge), Extended(entry.path, entry.score, edge))
  }

  /** An entry of the bucket at `v`: its score is its path's, and the path is a chain of edges tiling [0, v). */
  ghost predicate EntryAt(e: Entry, v: nat, edges: Edges) {
    e.score == ScoreOf(e.path) && Consistent(e.path, v) && UsesEdges(Segments(e.path), edges)
  }

  ghost predicate UsesEdges(segments: seq<MixedSegment>, edges: Edges) {
    forall s :: s in segments ==> s.begin < |edges| && s in edges[s.begin]
  }

  /** Every path but the raw one consists of edges, so its ASCII segments are tokens with their kinds and scores. */
  ghost predicate PathsUse(paths: seq<MixedPath>, edges: Edges) {
    forall i :: 1 <= i < |paths| ==> UsesEdges(paths[i].segments, edges)
  }

  lemma RawUses(raw: Text, edges: Edges)
    ensures PathsUse([RawPath(raw)], edges)
  {
  }

  lemma PathsUsePush(paths: seq<MixedPath>, path: MixedPath, edges: Edges)
    requires PathsUse(paths, edges) && UsesEdges(path.segments, edges)
    ensures PathsUse(paths + [path], edges)
  {
  }

  lemma NextAt(e: Entry, v: nat, edge: MixedSegment, edges: Edges)
    requires EntryAt(e, v, edges) && v < |edges| && edge in edges[v] && edge.begin == v < edge.end
    ensures EntryAt(Next(e, edge), edge.end, edges)
  {
    ExtendConsistent(e.path, v, edge);
  }

  type Buckets = seq<seq<Entry>>

  /** The buckets hold the best of everything `inserted` so far, all of it sound. */
  ghost predicate Keeps(dp: Buckets, inserted: Buckets, edges: Edges) {
    && |dp| == |inserted| == |edges|
    && (forall v :: 0 <= v < |dp| ==> IsTopK(dp[v], inserted[v]))
    && (forall v, e :: 0 <= v < |dp| && e in inserted[v] ==> EntryAt(e, v, edges))
  }

  /** Every extension of a kept entry by one of the first `count` edges at `v` was inserted. */
  ghost predicate Extends(dp: Buckets, inserted: Buckets, edges: Edges, v: nat, count: nat)
    requires |dp| == |inserted| == |edges| && v < |dp|
  {
    count <= |edges[v]| &&
    forall k, e :: 0 <= k < count && e in dp[v] ==> edges[v][k].end < |dp| && Next(e, edges[v][k]) in inserted[edges[v][k].end]
  }

  /** Closed under extension: whatever extends a kept entry is kept, or is outranked by a full bucket. */
  ghost predicate Closed(dp: Buckets, edges: Edges) {
    |dp| == |edges| &&
    forall v, s, e :: 0 <= v < |dp| - 1 && s in edges[v] && e in dp[v] ==>
      s.end < |dp| && (Represents(dp[s.end], Next(e, s)) || Outranks(dp[s.end], Next(e, s)))
  }

  /** The result of decoding, told without the algorithm. */
  ghost predicate Decodes(result: MixedDecodeResult, raw: Text, layout: Layout, spaceTone: bool, lookup: Text -> seq<Char>) {
    var paths := result.paths;
    && result.raw == raw
    && 1 <= |paths| <= TOP_K + 1
    && paths[0] == RawPath(raw)
    && (forall i :: 1 <= i < |paths| ==> PathOf(paths[i], raw, layout, spaceTone, lookup))
    && (forall i, j :: 0 <= i < j < |paths| ==> paths[i].rendered != paths[j].rendered)
    && (forall i, j :: 1 <= i < j < |paths| ==> paths[i].score >= paths[j].score)
  }

  /** A path covers the input exactly once with sound edges, renders as its segments do, and is scored by them. */
  ghost predicate PathOf(path: MixedPath, raw: Text, layout: Layout, spaceTone: bool, lookup: Text -> seq<Char>) {
    && Tiles(path.segments, 0, |raw|)
    && path.rendered == Rendering(path.segments)
    && path.score == PathScore(path.segments)
    && (forall s :: s in path.segments ==> IsEdge(s, raw, layout, spaceTone, lookup))
  }

  function RawSegment(raw: Text): MixedSegment {
    MixedSegment(Symbol, 0, |raw|, raw, [], 0, [], [], 0.0)
  }

  function RawPath(raw: Text): MixedPath {
    MixedPath([RawSegment(raw)], raw, 0.0)
  }

  /** Every kept complete interpretation is listed, unless it renders as the raw input. */
  ghost predicate Lists(result: MixedDecodeResult, bucket: seq<Entry>) {
    forall e :: e in bucket && e.Rendered() != result.raw ==>
      PathOfEntry(e) in result.paths
  }

  const LATIN_BASE := 10.0
  const ALNUM_BASE := 8.0
  const NUMBER_BASE := 8.0
  const SYMBOL_BASE := 0.0
  const STRUCTURED_BOOST := 60.0
  const KNOWN_WORD_BOOST := 20.0
  const EXPLICIT_TONE_BOOST := 40.0
  const SPACE_TONE_BOOST := 25.0
  const BODY_CHAR_BOOST := 6.0

  class MixedInputDecoder {
    const lookup: Text -> seq<Char>
    const frequency: Option<Text -> real>

    constructor (lookup: Text -> seq<Char>, frequency: Option<Text -> real>)
      ensures this.lookup == lookup && this.frequency == frequency
    {
      this.lookup, this.frequency := lookup, frequency;
    }

    /** The kind and score of an ASCII token. */
    function Scored(kind: A.TokenKind, text: Text): (SegmentKind, real) {
      var known := if frequency.Some? then KNOWN_WORD_BOOST * (frequency.value)(text) else 0.0;
      match kind
      case LatinWord => (Latin, LATIN_BASE + known)
      case Alphanumeric => (Latin, ALNUM_BASE + known)
      case Number => (SegmentKind.Number, NUMBER_BASE)
      case OperatorOrSymbol => (Symbol, SYMBOL_BASE)
      case _ => (Latin, STRUCTURED_BOOST)
    }

    /** The segment of an ASCII token. */
    function EdgeOf(raw: Text, token: A.Token): MixedSegment
      requires token.begin <= token.end <= |raw|
    {
      var text := raw[token.begin..token.end];
      MixedSegment(Scored(token.kind, text).0, token.begin, token.end, text, [], 0, [], [], Scored(token.kind, text).1)
    }

    /** The edges at `i`: one for each token that starts there, in their order, and then Bopomofo edges only. */
    ghost predicate AsciiAt(list: seq<MixedSegment>, raw: Text, i: nat) {
      exists tokens: seq<A.Token> :: TokenEdges(list, tokens, raw, i)
    }

    ghost predicate TokenEdges(list: seq<MixedSegment>, tokens: seq<A.Token>, raw: Text, i: nat) {
      && i < |raw| && A.Sound(tokens, raw, i, 5) && A.Complete(tokens, raw, i)
      && tokens != [] && tokens[0].end == i + 1
      && |tokens| <= |list|
      && (forall k :: 0 <= k < |tokens| ==> tokens[k].begin <= tokens[k].end <= |raw| && list[k] == EdgeOf(raw, tokens[k]))
      && (forall k :: |tokens| <= k < |list| ==> list[k].kind == Bopomofo)
    }

    ghost predicate AsciiExact(edges: Edges, raw: Text) {
      |edges| == |raw| + 1 && forall i :: 0 <= i < |raw| ==> AsciiAt(edges[i], raw, i)
    }

    lemma BopomofoKeepsAscii(edges: Edges, s: MixedSegment, raw: Text)
      requires AsciiExact(edges, raw) && s.begin < |edges| && s.kind == Bopomofo
      ensures AsciiExact(Added(edges, s), raw)
    {
      hide TokenEdges;
      forall i | 0 <= i < |raw| ensures AsciiAt(Added(edges, s)[i], raw, i) {
        assert AsciiAt(edges[i], raw, i);
        if i == s.begin {
          var tokens :| TokenEdges(edges[i], tokens, raw, i);
          MoreBopomofo(edges[i], tokens, s, raw, i);
        }
      }
    }

    lemma MoreBopomofo(list: seq<MixedSegment>, tokens: seq<A.Token>, s: MixedSegment, raw: Text, i: nat)
      requires TokenEdges(list, tokens, raw, i) && s.kind == Bopomofo
      ensures TokenEdges(list + [s], tokens, raw, i)
    {
      hide A.Sound, A.Complete;
    }

    /** The first token is the single unit. */
    lemma AsciiHasSingle(edges: Edges, raw: Text, i: nat)
      requires AsciiExact(edges, raw) && i < |raw|
      ensures HasSingle(edges, i)
    {
      hide A.Sound, A.Complete;
      assert AsciiAt(edges[i], raw, i);
      var tokens :| TokenEdges(edges[i], tokens, raw, i);
      assert edges[i][0] == EdgeOf(raw, tokens[0]);
      assert edges[i][0] in edges[i];
    }

    method AsciiEdges(raw: Text, layout: Layout, spaceTone: bool) returns (edges: Edges)
      ensures EdgesOf(edges, raw, layout, spaceTone, lookup) && AsciiExact(edges, raw)
    {
      hide ReplayedReading, AsciiAt, EdgesOf;
      edges := seq(|raw| + 1, _ => []);
      NoEdgesYet(edges, raw, layout, spaceTone, lookup);
      var i := 0;
      while i < |raw|
        invariant 0 <= i <= |raw| && |edges| == |raw| + 1 && EdgesOf(edges, raw, layout, spaceTone, lookup)
        invariant forall k :: 0 <= k < i ==> AsciiAt(edges[k], raw, k)
        invariant forall k :: i <= k < |raw| ==> edges[k] == []
      {
        edges := AsciiEdgesAt(edges, raw, i, layout, spaceTone);
        i := i + 1;
      }
    }

    method AsciiEdgesAt(known: Edges, raw: Text, i: nat, layout: Layout, spaceTone: bool) returns (edges: Edges)
      requires EdgesOf(known, raw, layout, spaceTone, lookup) && i < |raw| && |known| == |raw| + 1 && known[i] == []
      ensures EdgesOf(edges, raw, layout, spaceTone, lookup) && |edges| == |known|
      ensures AsciiAt(edges[i], raw, i) && forall k :: 0 <= k < |known| && k != i ==> edges[k] == known[k]
    {
      hide ReplayedReading, A.Sound, A.Complete, EdgesOf, IsSyllable;
      edges := known;
      var tokens := A.TokenizeAscii(raw, i);
      TokensInside(tokens, raw, i);
      var k := 0;
      while k < |tokens|
        invariant 0 <= k <= |tokens| && EdgesOf(edges, raw, layout, spaceTone, lookup) && |edges| == |known| && |edges[i]| == k
        invariant forall j :: 0 <= j < k ==> edges[i][j] == EdgeOf(raw, tokens[j])
        invariant forall j :: 0 <= j < |known| && j != i ==> edges[j] == known[j]
      {
        var token := tokens[k];
        var text := raw[token.begin..token.end];
        var scored := Scored(token.kind, text);
        var segment := MixedSegment(scored.0, i, token.end, text, [], 0, [], [], scored.1);
        AddedGrows(edges, segment, raw, layout, spaceTone, lookup);
        edges := Added(edges, segment);
        k := k + 1;
      }
      assert TokenEdges(edges[i], tokens, raw, i);
    }

    /** Replays the keys in a scratch buffer and looks the reading up. */
    method Replay(body: Text, toneKey: Key, layout: Layout) returns (reading: Text, candidates: seq<Char>)
      ensures ReplayedReading(body, toneKey, layout).Some? ==>
        reading == ReplayedReading(body, toneKey, layout).value && candidates == lookup(reading)
      ensures ReplayedReading(body, toneKey, layout).None? ==> candidates == []
    {
      var scratch := new CompositionBuffer();
      var result := scratch.AddBopomofoKeys(body, toneKey, layout, true);
      if result.None? || !result.value.completed || |scratch.segments| != 1 {
        return [], [];
      }
      reading := scratch.segments[0].Reading();
      candidates := lookup(reading);
    }

    method ToneEdge(known: Edges, raw: Text, i: nat, length: nat, layout: Layout, spaceTone: bool) returns (edges: Edges)
      requires EdgesOf(known, raw, layout, spaceTone, lookup)
      requires 2 <= length <= MAX_SYLLABLE_KEYS && i + length <= |raw|
      ensures EdgesOf(edges, raw, layout, spaceTone, lookup) && Grows(known, edges)
      ensures AsciiExact(known, raw) ==> AsciiExact(edges, raw)
      ensures ToneEdgeDue(raw, i, length, layout, lookup) ==> HasEdge(edges, Bopomofo, i, i + length)
    {
      hide ReplayedReading, AsciiExact;
      edges := known;
      var j := i + length;
      var toneKey := raw[j - 1];
      if !IsExplicitToneKey(toneKey, layout) {
        return;
      }
      var body := raw[i..j - 1];
      var reading, candidates := Replay(body, toneKey, layout);
      if candidates == [] {
        return;
      }
      var segment := MixedSegment(Bopomofo, i, j, raw[i..j], body, toneKey, reading, candidates,
                                  EXPLICIT_TONE_BOOST + BODY_CHAR_BOOST * |body| as real);
      AddedGrows(edges, segment, raw, layout, spaceTone, lookup);
      if AsciiExact(edges, raw) {
        BopomofoKeepsAscii(edges, segment, raw);
      }
      edges := Added(edges, segment);
    }

    method SpaceEdge(known: Edges, raw: Text, i: nat, layout: Layout) returns (edges: Edges)
      requires EdgesOf(known, raw, layout, true, lookup) && i < |raw|
      ensures EdgesOf(edges, raw, layout, true, lookup) && Grows(known, edges)
      ensures AsciiExact(known, raw) ==> AsciiExact(edges, raw)
      ensures SpaceEdgeDue(raw, i, layout, lookup) ==> HasEdge(edges, Bopomofo, i, |raw|)
    {
      hide ReplayedReading, AsciiExact;
      edges := known;
      var bodyLength := |raw| - i;
      if bodyLength < (if i == 0 then 1 else 2) {
        return;
      }
      var reading, candidates := Replay(raw[i..], SPACE, layout);
      if candidates == [] {
        return;
      }
      var segment := MixedSegment(Bopomofo, i, |raw|, raw[i..|raw|], raw[i..], SPACE, reading, candidates,
                                  SPACE_TONE_BOOST + BODY_CHAR_BOOST * bodyLength as real);
      AddedGrows(edges, segment, raw, layout, true, lookup);
      if AsciiExact(edges, raw) {
        BopomofoKeepsAscii(edges, segment, raw);
      }
      edges := Added(edges, segment);
    }

    method AllEdges(raw: Text, layout: Layout, spaceTone: bool) returns (edges: Edges)
      ensures EdgesComplete(edges, raw, layout, spaceTone, lookup) && AsciiExact(edges, raw)
    {
      hide ReplayedReading, AsciiExact, EdgesOf, HasSingle;
      edges := AsciiEdges(raw, layout, spaceTone);
      var i := 0;
      while i < |raw|
        invariant 0 <= i <= |raw| && EdgesOf(edges, raw, layout, spaceTone, lookup)
        invariant AsciiExact(edges, raw)
        invariant forall k: nat, length: nat :: k < i && ToneEdgeDue(raw, k, length, layout, lookup) ==> HasEdge(edges, Bopomofo, k, k + length)
      {
        ghost var before := edges;
        edges := ToneEdgesAt(edges, raw, i, layout, spaceTone);
        DueGrow(before, edges);
        i := i + 1;
      }
      if spaceTone {
        i := 0;
        while i < |raw|
          invariant 0 <= i <= |raw| && EdgesOf(edges, raw, layout, spaceTone, lookup)
          invariant AsciiExact(edges, raw)
          invariant forall k: nat, length: nat :: ToneEdgeDue(raw, k, length, layout, lookup) ==> HasEdge(edges, Bopomofo, k, k + length)
          invariant forall k: nat :: k < i && SpaceEdgeDue(raw, k, layout, lookup) ==> HasEdge(edges, Bopomofo, k, |raw|)
        {
          ghost var before := edges;
          edges := SpaceEdge(edges, raw, i, layout);
          DueGrow(before, edges);
          i := i + 1;
        }
      }
      forall k | 0 <= k < |raw| ensures HasSingle(edges, k) {
        AsciiHasSingle(edges, raw, k);
      }
    }

    method ToneEdgesAt(known: Edges, raw: Text, i: nat, layout: Layout, spaceTone: bool) returns (edges: Edges)
      requires EdgesOf(known, raw, layout, spaceTone, lookup) && i < |raw|
      ensures EdgesOf(edges, raw, layout, spaceTone, lookup) && Grows(known, edges)
      ensures AsciiExact(known, raw) ==> AsciiExact(edges, raw)
      ensures forall length: nat :: ToneEdgeDue(raw, i, length, layout, lookup) ==> HasEdge(edges, Bopomofo, i, i + length)
    {
      hide ReplayedReading, AsciiExact, EdgesOf;
      edges := known;
      var length := 2;
      while length <= MAX_SYLLABLE_KEYS && i + length <= |raw|
        invariant 2 <= length && EdgesOf(edges, raw, layout, spaceTone, lookup) && Grows(known, edges)
        invariant AsciiExact(known, raw) ==> AsciiExact(edges, raw)
        invariant forall n: nat :: n < length && ToneEdgeDue(raw, i, n, layout, lookup) ==> HasEdge(edges, Bopomofo, i, i + n)
      {
        ghost var before := edges;
        edges := ToneEdge(edges, raw, i, length, layout, spaceTone);
        GrowsTrans(known, before, edges);
        DueGrow(before, edges);
        length := length + 1;
      }
    }

    /** One entry behind one edge, with the incremental penalties. */
    method Extend(entry: Entry, edge: MixedSegment) returns (next: Entry)
      ensures next == Next(entry, edge)
    {
      var prevLatin := if entry.path.Link? then entry.path.latinCount else 0;
      var score := entry.score + edge.score;
      if entry.path.Link? && entry.path.segment.kind != edge.kind {
        score := score - SWITCH_PENALTY;
      }
      if prevLatin > 0 && edge.kind == Latin {
        score := score - FRAGMENT_PENALTY;
      }
      var rendered := (if entry.path.Link? then entry.path.rendered else []) + RenderSegment(edge);
      next := Entry(score, Link(entry.path, edge, score, rendered, prevLatin + if edge.kind == Latin then 1 else 0));
    }

    /** Extends every entry of the bucket at `v` by `edge`. */
    method ExtendBucket(dp0: Buckets, v: nat, edge: MixedSegment, ghost inserted0: Buckets, ghost edges: Edges)
      returns (dp: Buckets, ghost inserted: Buckets)
      requires Keeps(dp0, inserted0, edges) && v < |edges| && edge in edges[v] && edge.begin == v < edge.end < |edges|
      ensures Keeps(dp, inserted, edges) && Above(dp0, dp, inserted0, inserted, edge.end)
      ensures forall e :: e in dp0[v] ==> Next(e, edge) in inserted[edge.end]
    {
      hide EntryAt, IsTopK, Next;
      dp, inserted := dp0, inserted0;
      var target := edge.end;
      var i := 0;
      while i < |dp0[v]|
        invariant 0 <= i <= |dp0[v]| && Keeps(dp, inserted, edges) && Above(dp0, dp, inserted0, inserted, target)
        invariant forall k :: 0 <= k < i ==> Next(dp0[v][k], edge) in inserted[target]
      {
        var next := Extend(dp0[v][i], edge);
        KeptEntry(dp0, inserted0, edges, v, i);
        NextAt(dp0[v][i], v, edge, edges);
        var bucket := InsertEntry(dp[target], next, inserted[target]);
        KeepsInserted(dp, inserted, edges, target, next, bucket);
        AboveInserted(dp0, dp, inserted0, inserted, target, next, bucket);
        inserted := inserted[target := inserted[target] + [next]];
        dp := dp[target := bucket];
        i := i + 1;
      }
    }

    method ExtendVertex(dp0: Buckets, v: nat, edges: Edges, ghost inserted0: Buckets) returns (dp: Buckets, ghost inserted: Buckets)
      requires Keeps(dp0, inserted0, edges) && v < |edges|
      requires forall s :: s in edges[v] ==> s.begin == v < s.end < |edges|
      ensures Keeps(dp, inserted, edges) && Above(dp0, dp, inserted0, inserted, v + 1)
      ensures Extends(dp, inserted, edges, v, |edges[v]|)
    {
      hide Keeps, IsTopK, Next;
      dp, inserted := dp0, inserted0;
      KeepsShape(dp0, inserted0, edges);
      var k := 0;
      while k < |edges[v]|
        invariant 0 <= k <= |edges[v]| && Keeps(dp, inserted, edges) && Above(dp0, dp, inserted0, inserted, v + 1)
        invariant |dp| == |inserted| == |edges| && Extends(dp, inserted, edges, v, k)
      {
        var edge := edges[v][k];
        assert edge in edges[v];
        ghost var dp1, inserted1 := dp, inserted;
        dp, inserted := ExtendBucket(dp, v, edge, inserted, edges);
        ExtendsGrows(dp1, dp, inserted1, inserted, edges, v, k);
        k := k + 1;
      }
    }

    /** The dynamic program over the edges, vertex by vertex. */
    method BestPaths(edges: Edges, n: nat) returns (dp: Buckets, ghost inserted: Buckets)
      requires |edges| == n + 1
      requires forall v, s :: 0 <= v < n && s in edges[v] ==> s.begin == v < s.end <= n
      ensures Keeps(dp, inserted, edges) && Closed(dp, edges) && dp[0] == [Entry(0.0, Start)]
    {
      hide IsTopK, Next, EntryAt;
      var start := Entry(0.0, Start);
      dp := seq(n + 1, _ => [])[0 := [start]];
      inserted := dp;
      StartKeeps(edges, n);
      var v := 0;
      while v < n
        invariant 0 <= v <= n && |dp| == |inserted| == |edges| && Keeps(dp, inserted, edges)
        invariant forall u :: 0 <= u < v ==> Extends(dp, inserted, edges, u, |edges[u]|)
        invariant dp[0] == [start]
      {
        ghost var dp1, inserted1 := dp, inserted;
        dp, inserted := ExtendVertex(dp, v, edges, inserted);
        forall u | 0 <= u < v ensures Extends(dp, inserted, edges, u, |edges[u]|) {
          ExtendsStays(dp1, dp, inserted1, inserted, edges, u, v);
        }
        v := v + 1;
      }
      forall u, s, e | 0 <= u < |dp| - 1 && s in edges[u] && e in dp[u]
        ensures s.end < |dp| && (Represents(dp[s.end], Next(e, s)) || Outranks(dp[s.end], Next(e, s)))
      {
        ClosedAt(dp, inserted, edges, u, s, e);
      }
    }

    /** The segments of a path, first to last. */
    method Materialize(link: PathLink) returns (segments: seq<MixedSegment>)
      ensures segments == Segments(link)
    {
      var chain: seq<MixedSegment> := [];
      var current := link;
      while current.Link?
        invariant Segments(link) == Segments(current) + Reversed(chain)
        decreases current
      {
        ReversedPush(chain, current.segment);
        Associative(Segments(current.prev), [current.segment], Reversed(chain));
        chain := chain + [current.segment];
        current := current.prev;
      }
      NothingAdded(Reversed(chain));
      segments := [];
      var i := |chain|;
      Whole(chain);
      while i > 0
        invariant 0 <= i <= |chain| && Reversed(chain) == segments + Reversed(chain[..i])
      {
        i := i - 1;
        PushOne(chain, i);
        ReversedPush(chain[..i], chain[i]);
        Associative(segments, [chain[i]], Reversed(chain[..i]));
        segments := segments + [chain[i]];
      }
      NothingAdded(segments);
    }

    /** The raw path, then the kept paths that render differently from it, best first. */
    method Collect(raw: Text, bucket: seq<Entry>, ghost inserted: seq<Entry>, ghost edges: Edges, ghost layout: Layout, ghost spaceTone: bool)
      returns (result: MixedDecodeResult)
      requires IsTopK(bucket, inserted) && (forall e :: e in inserted ==> EntryAt(e, |raw|, edges))
      requires EdgesOf(edges, raw, layout, spaceTone, lookup)
      ensures Decodes(result, raw, layout, spaceTone, lookup) && Lists(result, bucket) && PathsUse(result.paths, edges)
    {
      hide EntryAt, EdgesOf, Decodes, Lists, Gathered, Shows, AllPaths, IsTopK, UsesEdges, PathsUse, Segments;
      BucketShape(bucket, inserted);
      var sorted := SortByScore(bucket);
      SameEntries(bucket, sorted);
      DistinctPermuted(bucket, sorted);
      var paths := [RawPath(raw)];
      var seen := {raw};
      var i := 0;
      CollectStart(sorted, raw, layout, spaceTone, lookup);
      RawUses(raw, edges);
      while i < |sorted|
        invariant 0 <= i <= |sorted| && Gathered(paths, sorted, i, raw) && Shows(paths, seen)
        invariant AllPaths(paths, raw, layout, spaceTone, lookup) && PathsUse(paths, edges)
      {
        var entry := sorted[i];
        assert entry in bucket && entry in inserted;
        if entry.Rendered() !in seen {
          var segments := Materialize(entry.path);
          EntryPath(entry, raw, edges, layout, spaceTone, lookup);
          PathsUsePush(paths, PathOfEntry(entry), edges);
          CollectPush(paths, seen, sorted, i, raw, layout, spaceTone, lookup);
          seen := seen + {entry.Rendered()};
          paths := paths + [MixedPath(segments, entry.Rendered(), entry.score)];
        } else {
          CollectSkip(paths, seen, sorted, i, raw);
        }
        i := i + 1;
      }
      CollectEnd(paths, bucket, sorted, raw, layout, spaceTone, lookup);
      result := MixedDecodeResult(raw, paths);
    }

    /** Decodes the complete pending input. The ghost results show what was searched: all edges, and buckets
        closed under extension. */
    method Decode(raw: Text, layout: Layout, spaceTone: bool) returns (result: MixedDecodeResult, ghost edges: Edges, ghost buckets: Buckets)
      requires raw != []
      ensures Decodes(result, raw, layout, spaceTone, lookup)
      ensures EdgesComplete(edges, raw, layout, spaceTone, lookup) && AsciiExact(edges, raw) && Closed(buckets, edges)
      ensures |buckets| == |raw| + 1 && buckets[0] == [Entry(0.0, Start)] && Lists(result, buckets[|raw|])
      ensures PathsUse(result.paths, edges)
    {
      hide IsEdge, IsTopK, EntryAt, ToneEdgeDue, SpaceEdgeDue, AsciiExact;
      var found := AllEdges(raw, layout, spaceTone);
      EdgesGoForward(found, raw, layout, spaceTone, lookup);
      var dp, inserted := BestPaths(found, |raw|);
      result := Collect(raw, dp[|raw|], inserted[|raw|], found, layout, spaceTone);
      edges, buckets := found, dp;
    }
  }

  /** A syllable over the whole input is offered with a score at least its own, unless it shows as the raw
      input or eight other interpretations score at least as much. */
  lemma WholeSyllableIsOffered(result: MixedDecodeResult, raw: Text, layout: Layout, spaceTone: bool, lookup: Text -> seq<Char>,
                               edges: Edges, buckets: Buckets, s: MixedSegment)
    requires raw != [] && Decodes(result, raw, layout, spaceTone, lookup) && EdgesOf(edges, raw, layout, spaceTone, lookup)
    requires Closed(buckets, edges) && |buckets| == |raw| + 1 && buckets[0] == [Entry(0.0, Start)] && Lists(result, buckets[|raw|])
    requires s in edges[0] && s.end == |raw| && RenderSegment(s) != raw
    ensures (exists i :: 1 <= i < |result.paths| && result.paths[i].rendered == RenderSegment(s) && result.paths[i].score >= s.score)
      || Outranks(buckets[|raw|], Entry(s.score, Extended(Start, 0.0, s)))
  {
    hide IsEdge, PathOf;
    var start := Entry(0.0, Start);
    assert start in buckets[0];
    var next := Next(start, s);
    NothingAdded(RenderSegment(s));
    if !Outranks(buckets[|raw|], next) {
      var x :| x in buckets[|raw|] && x.Rendered() == next.Rendered() && x.score >= next.score;
      assert PathOfEntry(x) in result.paths;
      var i :| 0 <= i < |result.paths| && result.paths[i] == PathOfEntry(x);
      assert i != 0;
    }
  }

  function PathOfEntry(e: Entry): MixedPath {
    MixedPath(Segments(e.path), e.Rendered(), e.score)
  }

  /** `paths` are the raw path and then, in order, the first `count` entries that render differently from it. */
  ghost predicate Gathered(paths: seq<MixedPath>, sorted: seq<Entry>, count: nat, raw: Text) {
    && count <= |sorted| && 1 <= |paths| <= count + 1 && paths[0] == RawPath(raw)
    && (forall k :: 1 <= k < |paths| ==> exists j :: 0 <= j < count && paths[k] == PathOfEntry(sorted[j]))
    && (forall j, k :: 0 <= j < k < |paths| ==> paths[j].rendered != paths[k].rendered)
    && (forall j, k :: 1 <= j < k < |paths| ==> paths[j].score >= paths[k].score)
    && (forall k :: 0 <= k < count && sorted[k].Rendered() != raw ==> PathOfEntry(sorted[k]) in paths)
  }

  lemma GatheredPush(paths: seq<MixedPath>, sorted: seq<Entry>, i: nat, raw: Text)
    requires Gathered(paths, sorted, i, raw) && i < |sorted| && Sorted(sorted)
    requires forall k :: 0 <= k < |paths| ==> paths[k].rendered != sorted[i].Rendered()
    ensures Gathered(paths + [PathOfEntry(sorted[i])], sorted, i + 1, raw)
  {
    var more := paths + [PathOfEntry(sorted[i])];
    assert more[|paths|] == PathOfEntry(sorted[i]);
    forall k | 0 <= k < i + 1 && sorted[k].Rendered() != raw ensures PathOfEntry(sorted[k]) in more {
      if k < i {
        assert PathOfEntry(sorted[k]) in paths;
      }
    }
    forall k | 1 <= k < |paths| ensures paths[k].score >= sorted[i].score {
      var j :| 0 <= j < i && paths[k] == PathOfEntry(sorted[j]);
    }
  }

  /** An entry is skipped only when it renders as the raw input. */
  lemma GatheredSkip(paths: seq<MixedPath>, sorted: seq<Entry>, i: nat, raw: Text)
    requires Gathered(paths, sorted, i, raw) && i < |sorted| && Distinct(sorted)
    requires exists k :: 0 <= k < |paths| && paths[k].rendered == sorted[i].Rendered()
    ensures Gathered(paths, sorted, i + 1, raw)
  {
    var k :| 0 <= k < |paths| && paths[k].rendered == sorted[i].Rendered();
    assert k == 0;
  }

  /** `seen` holds exactly the renderings of the paths. */
  ghost predicate Shows(paths: seq<MixedPath>, seen: set<Text>) {
    forall t :: t in seen <==> exists k :: 0 <= k < |paths| && paths[k].rendered == t
  }

  ghost predicate AllPaths(paths: seq<MixedPath>, raw: Text, layout: Layout, spaceTone: bool, lookup: Text -> seq<Char>) {
    forall k :: 1 <= k < |paths| ==> PathOf(paths[k], raw, layout, spaceTone, lookup)
  }

  lemma CollectStart(sorted: seq<Entry>, raw: Text, layout: Layout, spaceTone: bool, lookup: Text -> seq<Char>)
    ensures Gathered([RawPath(raw)], sorted, 0, raw) && Shows([RawPath(raw)], {raw})
    ensures AllPaths([RawPath(raw)], raw, layout, spaceTone, lookup)
  {
    assert [RawPath(raw)][0].rendered == raw;
  }

  lemma CollectPush(paths: seq<MixedPath>, seen: set<Text>, sorted: seq<Entry>, i: nat, raw: Text, layout: Layout, spaceTone: bool,
                    lookup: Text -> seq<Char>)
    requires Gathered(paths, sorted, i, raw) && Shows(paths, seen) && AllPaths(paths, raw, layout, spaceTone, lookup)
    requires i < |sorted| && Sorted(sorted) && sorted[i].Rendered() !in seen
    requires PathOf(PathOfEntry(sorted[i]), raw, layout, spaceTone, lookup)
    ensures var more := paths + [PathOfEntry(sorted[i])];
      && Gathered(more, sorted, i + 1, raw) && Shows(more, seen + {sorted[i].Rendered()})
      && AllPaths(more, raw, layout, spaceTone, lookup)
  {
    hide Gathered, PathOf, Sorted;
    var more := paths + [PathOfEntry(sorted[i])];
    GatheredPush(paths, sorted, i, raw);
    assert more[|paths|].rendered == sorted[i].Rendered();
    assert forall k :: 0 <= k < |paths| ==> more[k] == paths[k];
  }

  lemma CollectSkip(paths: seq<MixedPath>, seen: set<Text>, sorted: seq<Entry>, i: nat, raw: Text)
    requires Gathered(paths, sorted, i, raw) && Shows(paths, seen) && i < |sorted| && Distinct(sorted)
    requires sorted[i].Rendered() in seen
    ensures Gathered(paths, sorted, i + 1, raw)
  {
    hide Gathered;
    GatheredSkip(paths, sorted, i, raw);
  }

  lemma CollectEnd(paths: seq<MixedPath>, bucket: seq<Entry>, sorted: seq<Entry>, raw: Text, layout: Layout, spaceTone: bool,
                   lookup: Text -> seq<Char>)
    requires Gathered(paths, sorted, |sorted|, raw) && |sorted| <= TOP_K && (forall x :: x in bucket <==> x in sorted)
    requires AllPaths(paths, raw, layout, spaceTone, lookup)
    ensures Decodes(MixedDecodeResult(raw, paths), raw, layout, spaceTone, lookup)
    ensures Lists(MixedDecodeResult(raw, paths), bucket)
  {
    hide PathOf, Gathered;
    GatheredDecodes(paths, bucket, sorted, raw, layout, spaceTone, lookup);
  }

  lemma BucketShape(bucket: seq<Entry>, inserted: seq<Entry>)
    requires IsTopK(bucket, inserted)
    ensures |bucket| <= TOP_K && Distinct(bucket) && forall e :: e in bucket ==> e in inserted
  {
  }

  lemma GatheredDecodes(paths: seq<MixedPath>, bucket: seq<Entry>, sorted: seq<Entry>, raw: Text, layout: Layout, spaceTone: bool,
                        lookup: Text -> seq<Char>)
    requires Gathered(paths, sorted, |sorted|, raw) && |sorted| <= TOP_K && (forall x :: x in bucket <==> x in sorted)
    requires forall k :: 1 <= k < |paths| ==> PathOf(paths[k], raw, layout, spaceTone, lookup)
    ensures Decodes(MixedDecodeResult(raw, paths), raw, layout, spaceTone, lookup)
    ensures Lists(MixedDecodeResult(raw, paths), bucket)
  {
    hide PathOf;
  }

  function Reversed(s: seq<MixedSegment>): seq<MixedSegment> {
    if s == [] then [] else Reversed(s[1..]) + [s[0]]
  }

  lemma {:induction false} ReversedPush(s: seq<MixedSegment>, x: MixedSegment)
    ensures Reversed(s + [x]) == [x] + Reversed(s)
  {
    if s != [] {
      TailOfSum(s, [x]);
      ReversedPush(s[1..], x);
      Associative([x], Reversed(s[1..]), [s[0]]);
    }
  }

  lemma EdgesGoForward(edges: Edges, raw: Text, layout: Layout, spaceTone: bool, lookup: Text -> seq<Char>)
    requires EdgesOf(edges, raw, layout, spaceTone, lookup)
    ensures forall v, s :: 0 <= v < |raw| && s in edges[v] ==> s.begin == v < s.end <= |raw|
  {
  }

  lemma EntryPath(e: Entry, raw: Text, edges: Edges, layout: Layout, spaceTone: bool, lookup: Text -> seq<Char>)
    requires EntryAt(e, |raw|, edges) && EdgesOf(edges, raw, layout, spaceTone, lookup)
    ensures PathOf(PathOfEntry(e), raw, layout, spaceTone, lookup) && UsesEdges(PathOfEntry(e).segments, edges)
  {
  }

  /** Only the buckets from `from` on changed, and only more was inserted. */
  ghost predicate Above(dp0: Buckets, dp: Buckets, inserted0: Buckets, inserted: Buckets, from: nat) {
    |dp0| == |dp| == |inserted0| == |inserted| &&
    (forall u :: 0 <= u < from && u < |dp| ==> dp[u] == dp0[u] && inserted[u] == inserted0[u]) &&
    forall u, e :: 0 <= u < |dp| && e in inserted0[u] ==> e in inserted[u]
  }

  lemma KeptEntry(dp: Buckets, inserted: Buckets, edges: Edges, v: nat, i: nat)
    requires Keeps(dp, inserted, edges) && v < |dp| && i < |dp[v]|
    ensures EntryAt(dp[v][i], v, edges)
  {
    assert dp[v][i] in inserted[v];
  }

  lemma KeepsShape(dp: Buckets, inserted: Buckets, edges: Edges)
    requires Keeps(dp, inserted, edges)
    ensures |dp| == |inserted| == |edges|
  {
  }

  lemma KeepsInserted(dp: Buckets, inserted: Buckets, edges: Edges, t: nat, e: Entry, bucket: seq<Entry>)
    requires Keeps(dp, inserted, edges) && t < |dp| && EntryAt(e, t, edges) && IsTopK(bucket, inserted[t] + [e])
    ensures Keeps(dp[t := bucket], inserted[t := inserted[t] + [e]], edges)
  {
    hide EntryAt, IsTopK;
  }

  lemma AboveInserted(dp0: Buckets, dp: Buckets, inserted0: Buckets, inserted: Buckets, t: nat, e: Entry, bucket: seq<Entry>)
    requires Above(dp0, dp, inserted0, inserted, t) && t < |dp|
    ensures Above(dp0, dp[t := bucket], inserted0, inserted[t := inserted[t] + [e]], t)
    ensures e in inserted[t := inserted[t] + [e]][t]
    ensures forall x :: x in inserted[t] ==> x in inserted[t := inserted[t] + [e]][t]
  {
    var more := inserted[t] + [e];
    assert more[|inserted[t]|] == e;
  }

  lemma ExtendsGrows(dp0: Buckets, dp: Buckets, inserted0: Buckets, inserted: Buckets, edges: Edges, v: nat, k: nat)
    requires |dp0| == |inserted0| == |edges| == |dp| == |inserted| && v < |dp| && k < |edges[v]|
    requires Extends(dp0, inserted0, edges, v, k) && v < edges[v][k].end < |dp|
    requires Above(dp0, dp, inserted0, inserted, edges[v][k].end)
    requires forall e :: e in dp0[v] ==> Next(e, edges[v][k]) in inserted[edges[v][k].end]
    ensures Extends(dp, inserted, edges, v, k + 1)
  {
    hide Next;
    assert dp[v] == dp0[v];
  }

  lemma ExtendsStays(dp0: Buckets, dp: Buckets, inserted0: Buckets, inserted: Buckets, edges: Edges, u: nat, v: nat)
    requires |dp0| == |inserted0| == |edges| == |dp| == |inserted| && u < v < |dp|
    requires Extends(dp0, inserted0, edges, u, |edges[u]|) && Above(dp0, dp, inserted0, inserted, v + 1)
    ensures Extends(dp, inserted, edges, u, |edges[u]|)
  {
    hide Next;
    assert dp[u] == dp0[u];
  }

  lemma StartKeeps(edges: Edges, n: nat)
    requires |edges| == n + 1
    ensures var dp: Buckets := seq(n + 1, _ => [])[0 := [Entry(0.0, Start)]];
      Keeps(dp, dp, edges)
  {
    var start := Entry(0.0, Start);
    assert IsTopK([start], [start]) by {
      assert Represents([start], start);
    }
    assert EntryAt(start, 0, edges);
    assert IsTopK([], []);
  }

  lemma ClosedAt(dp: Buckets, inserted: Buckets, edges: Edges, u: nat, s: MixedSegment, e: Entry)
    requires Keeps(dp, inserted, edges) && u < |dp| && s in edges[u] && e in dp[u]
    requires Extends(dp, inserted, edges, u, |edges[u]|)
    ensures s.end < |dp| && (Represents(dp[s.end], Next(e, s)) || Outranks(dp[s.end], Next(e, s)))
  {
    hide Next;
    var k :| 0 <= k < |edges[u]| && edges[u][k] == s;
    assert Next(e, edges[u][k]) in inserted[edges[u][k].end];
    assert IsTopK(dp[s.end], inserted[s.end]);
  }

  lemma NoEdgesYet(edges: Edges, raw: Text, layout: Layout, spaceTone: bool, lookup: Text -> seq<Char>)
    requires |edges| == |raw| + 1 && forall i :: 0 <= i < |edges| ==> edges[i] == []
    ensures EdgesOf(edges, raw, layout, spaceTone, lookup)
  {
  }

  lemma TokensInside(tokens: seq<A.Token>, raw: Text, i: nat)
    requires A.Sound(tokens, raw, i, 5)
    ensures forall k :: 0 <= k < |tokens| ==> tokens[k].begin == i < tokens[k].end <= |raw|
  {
    forall k | 0 <= k < |tokens| ensures tokens[k].begin == i < tokens[k].end <= |raw| {
      assert A.Fits(raw, tokens[k]);
    }
  }

  lemma DueGrow(a: Edges, b: Edges)
    requires Grows(a, b)
    ensures forall kind, begin, end :: HasEdge(a, kind, begin, end) ==> HasEdge(b, kind, begin, end)
  {
  }
}
