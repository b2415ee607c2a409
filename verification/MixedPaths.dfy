/** Segments, paths and their scores (engine/src/input/mixed_input_decoder.hpp and .cpp). */
module MixedPaths {
  import opened Sequences
  import opened Compositions

  datatype SegmentKind = Latin | Bopomofo | Number | Symbol

  datatype MixedSegment = MixedSegment(
    kind: SegmentKind,
    begin: nat,
    end: nat,
    raw: Text,
    bodyKeys: Text,
    toneKey: nat,
    reading: Text,
    candidates: seq<Char>,
    score: real)

  /** A link of an immutable chain: one more segment behind the path `prev`. */
  datatype PathLink =
    | Start
    | Link(prev: PathLink, segment: MixedSegment, score: real, rendered: Text, latinCount: nat)

  datatype MixedPath = MixedPath(segments: seq<MixedSegment>, rendered: Text, score: real)

  datatype MixedDecodeResult = MixedDecodeResult(raw: Text, paths: seq<MixedPath>)

  const SWITCH_PENALTY := 12.0
  const FRAGMENT_PENALTY := 6.0

  function RenderSegment(segment: MixedSegment): Text {
    if segment.kind == Bopomofo && segment.candidates != [] then Units(segment.candidates[0]) else segment.raw
  }

  // ----- what a list of segments means -----

  /** The segments cover [begin, end) of the input in order, without gap or overlap. */
  predicate Tiles(segments: seq<MixedSegment>, begin: nat, end: nat)
    decreases |segments|
  {
    if segments == [] then begin == end
    else
      var front := segments[..|segments| - 1];
      var last := segments[|segments| - 1];
      last.end == end && last.begin < last.end && Tiles(front, begin, last.begin)
  }

  function Rendering(segments: seq<MixedSegment>): Text
    decreases |segments|
  {
    if segments == [] then []
    else Rendering(segments[..|segments| - 1]) + RenderSegment(segments[|segments| - 1])
  }

  function ScoreSum(segments: seq<MixedSegment>): real
    decreases |segments|
  {
    if segments == [] then 0.0
    else ScoreSum(segments[..|segments| - 1]) + segments[|segments| - 1].score
  }

  /** How many neighbours differ in kind. */
  function Switches(segments: seq<MixedSegment>): nat
    decreases |segments|
  {
    if |segments| <= 1 then 0
    else
      Switches(segments[..|segments| - 1]) +
      if segments[|segments| - 2].kind != segments[|segments| - 1].kind then 1 else 0
  }

  function Latins(segments: seq<MixedSegment>): nat
    decreases |segments|
  {
    if segments == [] then 0
    else Latins(segments[..|segments| - 1]) + if segments[|segments| - 1].kind == Latin then 1 else 0
  }

  /** The score of a path, told from its segments alone. */
  function PathScore(segments: seq<MixedSegment>): real {
    var extra := if Latins(segments) == 0 then 0 else Latins(segments) - 1;
    ScoreSum(segments) - SWITCH_PENALTY * Switches(segments) as real - FRAGMENT_PENALTY * extra as real
  }

  // ----- what the decoder keeps in a link -----

  function Segments(path: PathLink): seq<MixedSegment> {
    match path
    case Start => []
    case Link(prev, segment, _, _, _) => Segments(prev) + [segment]
  }

  function ScoreOf(path: PathLink): real {
    if path.Start? then 0.0 else path.score
  }

  function RenderedOf(path: PathLink): Text {
    if path.Start? then [] else path.rendered
  }

  function LatinsOf(path: PathLink): nat {
    if path.Start? then 0 else path.latinCount
  }

  /** The score of `prev` extended by `segment`, computed from the last kind and the Latin count only. */
  function ExtendedScore(prev: PathLink, entryScore: real, segment: MixedSegment): real {
    var switched := if prev.Link? && prev.segment.kind != segment.kind then SWITCH_PENALTY else 0.0;
    var fragmented := if LatinsOf(prev) > 0 && segment.kind == Latin then FRAGMENT_PENALTY else 0.0;
    entryScore + segment.score - switched - fragmented
  }

  function Extended(prev: PathLink, entryScore: real, segment: MixedSegment): PathLink {
    Link(prev, segment, ExtendedScore(prev, entryScore, segment), RenderedOf(prev) + RenderSegment(segment),
         LatinsOf(prev) + if segment.kind == Latin then 1 else 0)
  }

  /** The cached fields of every link agree with its segments, which tile [0, end). */
  predicate Consistent(path: PathLink, end: nat) {
    var segments := Segments(path);
    Tiles(segments, 0, end) && RenderedOf(path) == Rendering(segments) && ScoreOf(path) == PathScore(segments) &&
    LatinsOf(path) == Latins(segments)
  }

  lemma {:induction false} SegmentsNonempty(path: PathLink)
    ensures path.Link? ==> Segments(path) != [] && Segments(path)[|Segments(path)| - 1] == path.segment
    ensures path.Start? <==> Segments(path) == []
  {
  }

  /** Appending one segment: each measure of the longer list from the shorter one. */
  lemma {:induction false} Push(segments: seq<MixedSegment>, segment: MixedSegment)
    ensures var more := segments + [segment];
      && Rendering(more) == Rendering(segments) + RenderSegment(segment)
      && ScoreSum(more) == ScoreSum(segments) + segment.score
      && Latins(more) == Latins(segments) + (if segment.kind == Latin then 1 else 0)
      && Switches(more) == Switches(segments) + (if segments != [] && segments[|segments| - 1].kind != segment.kind then 1 else 0)
      && forall begin, end :: Tiles(more, begin, end) <==>
           segment.end == end && segment.begin < segment.end && Tiles(segments, begin, segment.begin)
  {
    var more := segments + [segment];
    Parts(segments, [segment]);
    assert more[..|more| - 1] == segments;
  }

  /** Extending a path keeps its cached fields true: the incremental penalties never count anything twice. */
  lemma ExtendConsistent(prev: PathLink, begin: nat, segment: MixedSegment)
    requires Consistent(prev, begin) && segment.begin == begin && begin < segment.end
    ensures Consistent(Extended(prev, ScoreOf(prev), segment), segment.end)
  {
    hide Rendering, ScoreSum, Latins, Switches, Tiles, PathScore, RenderSegment;
    Push(Segments(prev), segment);
    SegmentsNonempty(prev);
    ExtendScore(Segments(prev), segment);
  }

  lemma {:induction false} ExtendScore(segments: seq<MixedSegment>, segment: MixedSegment)
    ensures PathScore(segments + [segment]) == PathScore(segments) + segment.score
      - (if segments != [] && segments[|segments| - 1].kind != segment.kind then SWITCH_PENALTY else 0.0)
      - (if Latins(segments) > 0 && segment.kind == Latin then FRAGMENT_PENALTY else 0.0)
  {
    Push(segments, segment);
  }
}
