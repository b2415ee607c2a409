/** Stripping the composing preedit from an accessibility sample
    (engine/src/context/sample_adoption.hpp). */
module SampleAdoption {
  import opened Wrappers
  import opened Utf

  type Text = seq<Unit>

  datatype PreeditSegment = PreeditSegment(rendered: Text, reading: Text)

  /** `rest` is a non-empty form of every segment in order; the text may end inside the reading of any of
      them, and later segments then contribute nothing. */
  predicate Explained(rest: Text, segments: seq<PreeditSegment>)
    decreases segments, 0
  {
    if segments == [] then rest == []
    else
      || ExplainedBy(segments[0].rendered, rest, segments[1..])
      || ExplainedBy(segments[0].reading, rest, segments[1..])
      || CutInside(rest, segments[0].reading)
  }

  /** The first segment shows `form` and the later ones explain what follows it. */
  predicate ExplainedBy(form: Text, rest: Text, later: seq<PreeditSegment>)
    decreases later, 1
  {
    form != [] && form <= rest && Explained(rest[|form|..], later)
  }

  predicate CutInside(rest: Text, reading: Text) {
    rest != [] && rest < reading
  }

  // ----- the same relation, as the existence of a list of forms -----

  function Joined(forms: seq<Text>): Text {
    if forms == [] then [] else forms[0] + Joined(forms[1..])
  }

  predicate IsForm(form: Text, segment: PreeditSegment) {
    form != [] && (form == segment.rendered || form == segment.reading)
  }

  predicate Shows(forms: seq<Text>, segments: seq<PreeditSegment>) {
    |forms| == |segments| && forall i :: 0 <= i < |forms| ==> IsForm(forms[i], segments[i])
  }

  /** `rest` is `forms`, one for each of the first segments, followed by `cut`: either nothing when every
      segment has shown a form, or the beginning of the next reading. */
  predicate Spells(rest: Text, segments: seq<PreeditSegment>, forms: seq<Text>, cut: Text) {
    |forms| <= |segments| && Shows(forms, segments[..|forms|]) && rest == Joined(forms) + cut &&
    if |forms| == |segments| then cut == [] else CutInside(cut, segments[|forms|].reading)
  }

  lemma {:induction false} SpelledIsExplained(rest: Text, segments: seq<PreeditSegment>, forms: seq<Text>, cut: Text)
    requires Spells(rest, segments, forms, cut)
    ensures Explained(rest, segments)
  {
    if forms == [] {
      assert rest == cut;
    } else {
      assert forall i :: 0 <= i < |forms| ==> IsForm(forms[i], segments[..|forms|][i]);
      assert IsForm(forms[0], segments[0]);
      assert segments[1..][..|forms[1..]|] == segments[..|forms|][1..];
      assert rest == forms[0] + (Joined(forms[1..]) + cut);
      assert rest[|forms[0]|..] == Joined(forms[1..]) + cut;
      SpelledIsExplained(rest[|forms[0]|..], segments[1..], forms[1..], cut);
    }
  }

  lemma {:induction false} ExplainedIsSpelled(rest: Text, segments: seq<PreeditSegment>) returns (forms: seq<Text>, cut: Text)
    requires Explained(rest, segments)
    ensures Spells(rest, segments, forms, cut)
    decreases segments
  {
    if segments == [] {
      forms, cut := [], [];
    } else if CutInside(rest, segments[0].reading) {
      forms, cut := [], rest;
    } else {
      var form := if ExplainedBy(segments[0].rendered, rest, segments[1..]) then segments[0].rendered else segments[0].reading;
      var later;
      later, cut := ExplainedIsSpelled(rest[|form|..], segments[1..]);
      forms := [form] + later;
      assert forms[1..] == later;
      assert segments[..|forms|] == [segments[0]] + segments[1..][..|later|];
      assert rest == form + rest[|form|..];
      assert Joined(forms) + cut == form + (Joined(later) + cut);
    }
  }

  // ----- what the function promises -----

  predicate LeastStart(sample: Text, segments: seq<PreeditSegment>, start: nat) {
    start < |sample| && Explained(sample[start..], segments) &&
    forall k :: 0 <= k < start ==> !Explained(sample[k..], segments)
  }

  /** What strip_preedit_suffix returns. */
  ghost predicate Strips(sample: Text, segments: seq<PreeditSegment>, r: Option<Text>) {
    if segments == [] then r == Some(sample)
    else if sample == [] then r == Some([])
    else
      match r
      case Some(kept) => kept <= sample && LeastStart(sample, segments, |kept|)
      case None => forall k :: 0 <= k < |sample| ==> !Explained(sample[k..], segments)
  }

  /** When the widget shows the committed text followed by one form of every segment, possibly cut inside
      a reading, nothing of the composition is kept: the result is a prefix of the committed text. */
  lemma KeepsOnlyCommitted(committed: Text, shown: Text, segments: seq<PreeditSegment>, forms: seq<Text>, cut: Text, r: Option<Text>)
    requires Spells(shown, segments, forms, cut)
    requires Strips(committed + shown, segments, r)
    ensures r.Some? && r.value <= committed
    ensures segments == [] ==> r.value == committed
  {
    var sample := committed + shown;
    if segments == [] {
      assert shown == [];
      assert sample == committed;
    } else {
      SpelledIsExplained(shown, segments, forms, cut);
      ExplainedIsNonempty(shown, segments);
      assert sample[|committed|..] == shown;
      if r.Some? {
        assert |r.value| <= |committed|;
        assert sample[..|r.value|] == committed[..|r.value|];
      }
    }
  }

  lemma {:induction false} ExplainedIsNonempty(rest: Text, segments: seq<PreeditSegment>)
    requires segments != [] && Explained(rest, segments)
    ensures rest != []
  {
    assert !ExplainedBy(segments[0].rendered, [], segments[1..]);
    assert !ExplainedBy(segments[0].reading, [], segments[1..]);
  }

  // ----- the documented result -----

  /** What the header documents: every segment shows a form, only the last one may be cut off. */
  ghost predicate Documented(rest: Text, segments: seq<PreeditSegment>) {
    exists forms, cut :: Spells(rest, segments, forms, cut) && |forms| + 1 >= |segments|
  }

  /** The text ends inside the reading of a segment before the last, so that later segments show nothing. */
  ghost predicate EarlyCut(rest: Text, segments: seq<PreeditSegment>) {
    exists forms, cut :: Spells(rest, segments, forms, cut) && |forms| + 1 < |segments|
  }

  /** The result the header documents. */
  ghost predicate StripsAsDocumented(sample: Text, segments: seq<PreeditSegment>, r: Option<Text>) {
    if segments == [] then r == Some(sample)
    else if sample == [] then r == Some([])
    else
      var start := DocumentedStart(sample, segments, 0);
      r == if start < |sample| then Some(sample[..start]) else None
  }

  /** The least documented start from `from` on; the length of the sample when there is none. */
  ghost function DocumentedStart(sample: Text, segments: seq<PreeditSegment>, from: nat): (start: nat)
    requires from <= |sample|
    ensures from <= start <= |sample|
    ensures start < |sample| ==> Documented(sample[start..], segments)
    ensures forall p :: from <= p < start ==> !Documented(sample[p..], segments)
    decreases |sample| - from
  {
    if from == |sample| || Documented(sample[from..], segments) then from else DocumentedStart(sample, segments, from + 1)
  }

  lemma {:induction false} ExplainedBothWays(rest: Text, segments: seq<PreeditSegment>)
    ensures Explained(rest, segments) <==> Documented(rest, segments) || EarlyCut(rest, segments)
  {
    hide Explained, Spells;
    if Explained(rest, segments) {
      var forms, cut := ExplainedIsSpelled(rest, segments);
    }
    forall forms, cut | Spells(rest, segments, forms, cut) ensures Explained(rest, segments) {
      SpelledIsExplained(rest, segments, forms, cut);
    }
  }

  /** The result is the documented one exactly when no suffix longer than the documented one ends inside a segment
      before the last. */
  lemma {:induction false} DocumentedUnlessEarlyCut(sample: Text, segments: seq<PreeditSegment>, r: Option<Text>)
    requires Strips(sample, segments, r)
    ensures StripsAsDocumented(sample, segments, r) <==>
      forall p :: 0 <= p < DocumentedStart(sample, segments, 0) ==> !EarlyCut(sample[p..], segments)
  {
    if segments == [] {
      forall p | 0 <= p < DocumentedStart(sample, segments, 0) ensures !EarlyCut(sample[p..], segments) {
        NothingToCut(sample[p..]);
      }
    } else if sample != [] {
      LeastAgainstDocumented(sample, segments, r);
    }
  }

  lemma {:induction false} LeastAgainstDocumented(sample: Text, segments: seq<PreeditSegment>, r: Option<Text>)
    requires Strips(sample, segments, r) && segments != [] && sample != []
    ensures StripsAsDocumented(sample, segments, r) <==>
      forall p :: 0 <= p < DocumentedStart(sample, segments, 0) ==> !EarlyCut(sample[p..], segments)
  {
    hide Explained, Documented, EarlyCut;
    forall p | 0 <= p < |sample|
      ensures Explained(sample[p..], segments) <==> Documented(sample[p..], segments) || EarlyCut(sample[p..], segments)
    {
      ExplainedBothWays(sample[p..], segments);
    }
    var start := DocumentedStart(sample, segments, 0);
    if r.Some? {
      assert r.value == sample[..|r.value|];
      assert |r.value| <= start;
      assert |r.value| < start ==> EarlyCut(sample[|r.value|..], segments);
    } else {
      assert start == |sample|;
    }
  }

  lemma NothingToCut(rest: Text)
    ensures !EarlyCut(rest, [])
  {
  }

  /** Only the first symbol of the first of two readings is left in the sample: it is stripped, although the second
      segment shows nothing. As documented, the sample is not to be adopted. */
  lemma EarlyCutIsStripped() returns (sample: Text, segments: seq<PreeditSegment>)
    ensures sample == [0x3128] && segments == [PreeditSegment([0x6211], [0x3128, 0x311B, 0x02C7]), PreeditSegment([0x5011], [0x3107, 0x3123, 0x02CA])]
    ensures Strips(sample, segments, Some([])) && !StripsAsDocumented(sample, segments, Some([]))
    ensures StripsAsDocumented(sample, segments, None)
  {
    sample := [0x3128];
    segments := [PreeditSegment([0x6211], [0x3128, 0x311B, 0x02C7]), PreeditSegment([0x5011], [0x3107, 0x3123, 0x02CA])];
    assert CutInside(sample, segments[0].reading);
    assert sample[0..] == sample;
    assert Explained(sample[0..], segments);
    OneSymbolIsNotDocumented(segments);
    assert sample[..0] == [];
    assert DocumentedStart(sample, segments, 1) == 1;
  }

  lemma OneSymbolIsNotDocumented(segments: seq<PreeditSegment>)
    requires |segments| == 2 && [0x3128] != segments[0].rendered && |segments[0].reading| == 3
    ensures !Documented([0x3128], segments)
  {
    forall forms, cut | Spells([0x3128], segments, forms, cut) ensures forms == [] {
      if forms != [] {
        FirstFormIsAll([0x3128], segments, forms, cut);
      }
    }
  }

  lemma FirstFormIsAll(rest: Text, segments: seq<PreeditSegment>, forms: seq<Text>, cut: Text)
    requires Spells(rest, segments, forms, cut) && |rest| == 1 && forms != []
    ensures IsForm(rest, segments[0])
  {
    var later := Joined(forms[1..]) + cut;
    assert rest == forms[0] + later;
    assert IsForm(forms[0], segments[..|forms|][0]);
    assert forms[0] == (forms[0] + later)[..|forms[0]|] == rest[..1] == rest;
  }

  // ----- the table -----

  /** The index of one cell of the flat table. */
  function Cell(pos: nat, segment: nat, stride: nat): nat {
    pos * stride + segment
  }

  lemma {:induction false} RowsAreApart(p: nat, pos: nat, stride: nat)
    ensures p < pos ==> p * stride + stride <= pos * stride
  {
    if p < pos {
      assert pos * stride == (pos - 1) * stride + stride;
      RowsAreApart(p, pos - 1, stride);
    }
  }

  lemma CellsAreDistinct(stride: nat, pos: nat, segment: nat)
    requires segment < stride
    ensures forall p: nat, s: nat :: s < stride && Cell(p, s, stride) == Cell(pos, segment, stride) ==> p == pos && s == segment
  {
    forall p: nat, s: nat | s < stride && Cell(p, s, stride) == Cell(pos, segment, stride)
      ensures p == pos && s == segment
    {
      RowsAreApart(p, pos, stride);
      RowsAreApart(pos, p, stride);
    }
  }

  lemma AllCellsInTable(stride: nat, size: nat)
    ensures forall p: nat, s: nat :: p <= size && s < stride ==> Cell(p, s, stride) < (size + 1) * stride
  {
    forall p: nat, s: nat | p <= size && s < stride ensures Cell(p, s, stride) < (size + 1) * stride {
      RowsAreApart(p, size + 1, stride);
    }
  }

  ghost predicate IsTable(can: array<bool>, size: nat, stride: nat) {
    can.Length == (size + 1) * stride &&
    forall p: nat, s: nat :: p <= size && s < stride ==> Cell(p, s, stride) < can.Length
  }

  /** The cells of the columns after `column` and the first `rows` cells of that column hold the relation. */
  ghost predicate Filled(can: array<bool>, sample: Text, segments: seq<PreeditSegment>, stride: nat, column: nat, rows: nat)
    reads can
  {
    && stride == |segments| + 1
    && IsTable(can, |sample|, stride)
    && forall p: nat, s: nat :: p <= |sample| && s < stride && (column < s || (s == column && p < rows)) ==>
         can[Cell(p, s, stride)] == Explained(sample[p..], segments[s..])
  }

  /** One candidate form of a cell. */
  method TryForm(can: array<bool>, sample: Text, segments: seq<PreeditSegment>, segment: nat, pos: nat, candidate: Text)
    returns (value: bool)
    requires segment < |segments| && pos <= |sample| && Filled(can, sample, segments, |segments| + 1, segment, pos)
    ensures value == (ExplainedBy(candidate, sample[pos..], segments[segment + 1..]) ||
                      (candidate == segments[segment].reading && CutInside(sample[pos..], candidate)))
  {
    var stride := |segments| + 1;
    var rest := sample[pos..];
    value := false;
    if candidate != [] {
      if |rest| >= |candidate| {
        if rest[..|candidate|] == candidate {
          assert rest[|candidate|..] == sample[pos + |candidate|..];
          value := can[Cell(pos + |candidate|, segment + 1, stride)];
        }
      } else if rest != [] && candidate == segments[segment].reading && candidate[..|rest|] == rest {
        value := true;
      }
    }
  }

  /** One cell: tries the rendered form, then the reading. */
  method CellValue(can: array<bool>, sample: Text, segments: seq<PreeditSegment>, segment: nat, pos: nat) returns (value: bool)
    requires segment < |segments| && pos <= |sample| && Filled(can, sample, segments, |segments| + 1, segment, pos)
    ensures value == Explained(sample[pos..], segments[segment..])
  {
    var state := segments[segment];
    assert segments[segment..][0] == state && segments[segment..][1..] == segments[segment + 1..];
    value := TryForm(can, sample, segments, segment, pos, state.rendered);
    if !value {
      value := TryForm(can, sample, segments, segment, pos, state.reading);
    }
  }

  method SetCell(can: array<bool>, sample: Text, segments: seq<PreeditSegment>, stride: nat, segment: nat, pos: nat, value: bool)
    requires segment < stride && pos <= |sample| && Filled(can, sample, segments, stride, segment, pos)
    requires value == Explained(sample[pos..], segments[segment..])
    modifies can
    ensures Filled(can, sample, segments, stride, segment, pos + 1)
  {
    CellsAreDistinct(stride, pos, segment);
    can[Cell(pos, segment, stride)] := value;
  }

  method FillTable(sample: Text, segments: seq<PreeditSegment>) returns (can: array<bool>)
    ensures Filled(can, sample, segments, |segments| + 1, 0, |sample| + 1) && fresh(can)
  {
    hide Explained, Cell, Filled;
    var stride := |segments| + 1;
    can := NewTable(sample, segments);
    FillLastColumn(can, sample, segments);
    var segment := |segments|;
    while segment > 0
      invariant 0 <= segment <= |segments| && Filled(can, sample, segments, stride, segment, |sample| + 1)
    {
      NextColumn(can, sample, segments, segment);
      segment := segment - 1;
      FillColumn(can, sample, segments, segment);
    }
  }

  lemma NextColumn(can: array<bool>, sample: Text, segments: seq<PreeditSegment>, segment: nat)
    requires 0 < segment && Filled(can, sample, segments, |segments| + 1, segment, |sample| + 1)
    ensures Filled(can, sample, segments, |segments| + 1, segment - 1, 0)
  {
  }

  method NewTable(sample: Text, segments: seq<PreeditSegment>) returns (can: array<bool>)
    ensures Filled(can, sample, segments, |segments| + 1, |segments|, 0) && fresh(can)
  {
    var stride := |segments| + 1;
    can := new bool[(|sample| + 1) * stride](_ => false);
    AllCellsInTable(stride, |sample|);
  }

  /** With no segment left only the empty rest is explained. */
  method FillLastColumn(can: array<bool>, sample: Text, segments: seq<PreeditSegment>)
    requires Filled(can, sample, segments, |segments| + 1, |segments|, 0)
    modifies can
    ensures Filled(can, sample, segments, |segments| + 1, |segments|, |sample| + 1)
  {
    hide Cell, Filled;
    var pos := 0;
    while pos <= |sample|
      invariant 0 <= pos <= |sample| + 1 && Filled(can, sample, segments, |segments| + 1, |segments|, pos)
    {
      SetCell(can, sample, segments, |segments| + 1, |segments|, pos, pos == |sample|);
      pos := pos + 1;
    }
  }

  method FillColumn(can: array<bool>, sample: Text, segments: seq<PreeditSegment>, segment: nat)
    requires segment < |segments| && Filled(can, sample, segments, |segments| + 1, segment, 0)
    modifies can
    ensures Filled(can, sample, segments, |segments| + 1, segment, |sample| + 1)
  {
    hide Cell, Filled, Explained;
    var pos := 0;
    while pos <= |sample|
      invariant 0 <= pos <= |sample| + 1 && Filled(can, sample, segments, |segments| + 1, segment, pos)
    {
      var value := CellValue(can, sample, segments, segment, pos);
      SetCell(can, sample, segments, |segments| + 1, segment, pos, value);
      pos := pos + 1;
    }
  }

  method StripPreeditSuffix(sample: Text, segments: seq<PreeditSegment>) returns (r: Option<Text>)
    ensures Strips(sample, segments, r)
    ensures StripsAsDocumented(sample, segments, r) <==>
      forall p :: 0 <= p < DocumentedStart(sample, segments, 0) ==> !EarlyCut(sample[p..], segments)
  {
    r := LongestExplained(sample, segments);
    DocumentedUnlessEarlyCut(sample, segments, r);
  }

  method LongestExplained(sample: Text, segments: seq<PreeditSegment>) returns (r: Option<Text>)
    ensures Strips(sample, segments, r)
  {
    if segments == [] {
      return Some(sample);
    }
    if sample == [] {
      return Some([]);
    }
    var can := FillTable(sample, segments);
    assert segments[0..] == segments;
    var start := 0;
    while start < |sample|
      invariant 0 <= start <= |sample|
      invariant forall k :: 0 <= k < start ==> !Explained(sample[k..], segments)
    {
      if can[Cell(start, 0, |segments| + 1)] {
        return Some(sample[..start]);
      }
      start := start + 1;
    }
    return None;
  }
}
