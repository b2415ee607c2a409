/** The bounded bucket of best paths at one vertex (insert_entry of engine/src/input/mixed_input_decoder.cpp). */
module TopK {
  import opened Sequences
  import opened Compositions
  import opened MixedPaths

  const TOP_K := 8

  datatype Entry = Entry(score: real, path: PathLink) {
    function Rendered(): Text { RenderedOf(path) }
  }

  /** No two entries render alike, and none occurs twice. */
  ghost predicate Distinct(bucket: seq<Entry>) {
    forall i, j :: 0 <= i < j < |bucket| ==> bucket[i].Rendered() != bucket[j].Rendered()
  }

  ghost predicate Represents(bucket: seq<Entry>, e: Entry) {
    exists x :: x in bucket && x.Rendered() == e.Rendered() && x.score >= e.score
  }

  /** The bucket is full of entries at least as good as `e`. */
  ghost predicate Outranks(bucket: seq<Entry>, e: Entry) {
    |bucket| == TOP_K && forall x :: x in bucket ==> x.score >= e.score
  }

  /** What a bucket promises about everything ever inserted into it. */
  ghost predicate IsTopK(bucket: seq<Entry>, inserted: seq<Entry>) {
    && |bucket| <= TOP_K
    && Distinct(bucket)
    && (forall x :: x in bucket ==> x in inserted)
    && (forall e :: e in inserted ==> Represents(bucket, e) || Outranks(bucket, e))
  }

  predicate Sorted(bucket: seq<Entry>) {
    forall i, j :: 0 <= i < j < |bucket| ==> bucket[i].score >= bucket[j].score
  }

  lemma InsertedCount(front: seq<Entry>, back: seq<Entry>, e: Entry)
    ensures multiset(front + [e] + back) == multiset(front + back) + multiset{e}
  {
  }

  lemma InsertedSorted(sorted: seq<Entry>, k: nat, e: Entry)
    requires Sorted(sorted) && k <= |sorted|
    requires forall j :: 0 <= j < k ==> sorted[j].score >= e.score
    requires k < |sorted| ==> sorted[k].score <= e.score
    ensures Sorted(sorted[..k] + [e] + sorted[k..])
    ensures multiset(sorted[..k] + [e] + sorted[k..]) == multiset(sorted) + multiset{e}
  {
    CutAt(sorted, k);
    InsertedCount(sorted[..k], sorted[k..], e);
    assert forall j :: k <= j < |sorted| ==> sorted[j].score <= e.score;
  }

  lemma NothingToSort()
    ensures Sorted([])
  {
  }

  /** Where an entry of this score belongs. */
  method FirstBelow(sorted: seq<Entry>, score: real) returns (k: nat)
    ensures k <= |sorted| && forall j :: 0 <= j < k ==> sorted[j].score >= score
    ensures k < |sorted| ==> sorted[k].score < score
  {
    k := 0;
    while k < |sorted| && sorted[k].score >= score
      invariant 0 <= k <= |sorted| && forall j :: 0 <= j < k ==> sorted[j].score >= score
    {
      k := k + 1;
    }
  }

  /** One of the orders std::sort may leave: descending scores, the same entries. */
  method SortByScore(bucket: seq<Entry>) returns (sorted: seq<Entry>)
    ensures Sorted(sorted) && multiset(sorted) == multiset(bucket) && |sorted| == |bucket|
  {
    hide Sorted;
    sorted := [];
    var i := 0;
    NothingToSort();
    while i < |bucket|
      invariant 0 <= i <= |bucket| && |sorted| == i && Sorted(sorted) && multiset(sorted) == multiset(bucket[..i])
    {
      var k := FirstBelow(sorted, bucket[i].score);
      PushOne(bucket, i);
      InsertedSorted(sorted, k, bucket[i]);
      sorted := sorted[..k] + [bucket[i]] + sorted[k..];
      i := i + 1;
    }
    Whole(bucket);
  }

  lemma SameEntries(a: seq<Entry>, b: seq<Entry>)
    requires multiset(a) == multiset(b)
    ensures forall x :: x in a <==> x in b
  {
    forall x ensures x in a <==> x in b {
      assert x in multiset(a) <==> x in multiset(b);
    }
  }

  lemma CountTwo(s: seq<Entry>, i: nat, j: nat)
    requires i < j < |s| && s[i] == s[j]
    ensures multiset(s)[s[i]] >= 2
  {
    assert s == s[..j] + s[j..];
    assert s[..j][i] == s[i] && s[j..][0] == s[j];
    assert multiset(s) == multiset(s[..j]) + multiset(s[j..]);
  }

  lemma CountOne(s: seq<Entry>, i: nat)
    requires Distinct(s) && i < |s|
    ensures multiset(s)[s[i]] == 1
  {
    assert s == s[..i] + [s[i]] + s[i + 1..];
    assert s[i] !in s[..i] && s[i] !in s[i + 1..];
  }

  lemma DistinctPermuted(a: seq<Entry>, b: seq<Entry>)
    requires multiset(a) == multiset(b) && Distinct(a)
    ensures Distinct(b)
  {
    SameEntries(a, b);
    forall i, j | 0 <= i < j < |b| ensures b[i].Rendered() != b[j].Rendered() {
      assert b[i] in a && b[j] in a;
      if b[i] == b[j] {
        CountTwo(b, i, j);
        var k :| 0 <= k < |a| && a[k] == b[i];
        CountOne(a, k);
      }
    }
  }

  lemma ReplacedKeepsTopK(bucket: seq<Entry>, i: nat, e: Entry, inserted: seq<Entry>)
    requires IsTopK(bucket, inserted) && i < |bucket| && bucket[i].Rendered() == e.Rendered() && e.score >= bucket[i].score
    ensures IsTopK(bucket[i := e], inserted + [e])
  {
    var r := bucket[i := e];
    assert r[i] == e;
    forall x | x in inserted + [e] ensures Represents(r, x) || Outranks(r, x) {
      if x == e {
        assert Represents(r, x);
      } else if Represents(bucket, x) {
        var y :| y in bucket && y.Rendered() == x.Rendered() && y.score >= x.score;
        var k :| 0 <= k < |bucket| && bucket[k] == y;
        assert r[k] in r;
      }
    }
  }

  lemma KeptKeepsTopK(bucket: seq<Entry>, i: nat, e: Entry, inserted: seq<Entry>)
    requires IsTopK(bucket, inserted) && i < |bucket| && bucket[i].Rendered() == e.Rendered() && e.score <= bucket[i].score
    ensures IsTopK(bucket, inserted + [e])
  {
    assert Represents(bucket, e);
  }

  /** Pushing, sorting and truncating: what falls off is outranked by what stays. */
  lemma PushedKeepsTopK(bucket: seq<Entry>, e: Entry, inserted: seq<Entry>, sorted: seq<Entry>)
    requires IsTopK(bucket, inserted) && forall k :: 0 <= k < |bucket| ==> bucket[k].Rendered() != e.Rendered()
    requires multiset(sorted) == multiset(bucket + [e]) && |sorted| == |bucket| + 1 && Sorted(sorted)
    ensures IsTopK(if |sorted| > TOP_K then sorted[..TOP_K] else sorted, inserted + [e])
  {
    var r := if |sorted| > TOP_K then sorted[..TOP_K] else sorted;
    DistinctPermuted(bucket + [e], sorted);
    SameEntries(bucket + [e], sorted);
    assert forall x :: x in r ==> x in sorted;
    forall x | x in inserted + [e] ensures Represents(r, x) || Outranks(r, x) {
      PushedCovers(bucket, e, sorted, r, x);
    }
  }

  lemma PushedCovers(bucket: seq<Entry>, e: Entry, sorted: seq<Entry>, r: seq<Entry>, x: Entry)
    requires |bucket| <= TOP_K && Sorted(sorted) && |sorted| == |bucket| + 1 && multiset(sorted) == multiset(bucket + [e])
    requires r == if |sorted| > TOP_K then sorted[..TOP_K] else sorted
    requires x == e || Represents(bucket, x) || Outranks(bucket, x)
    ensures Represents(r, x) || Outranks(r, x)
  {
    SameEntries(bucket + [e], sorted);
    if x == e || Represents(bucket, x) {
      var y: Entry := e;
      if x != e {
        y :| y in bucket && y.Rendered() == x.Rendered() && y.score >= x.score;
      }
      assert y in bucket + [e];
      var k :| 0 <= k < |sorted| && sorted[k] == y;
      if k < |r| {
        assert r[k] in r;
      } else {
        assert forall i :: 0 <= i < |r| ==> sorted[i].score >= sorted[k].score;
        assert Outranks(r, x);
      }
    } else {
      OutrankingSurvives(bucket, e, sorted, r, x);
    }
  }

  /** Of nine entries, eight of them outranking `x`, the best eight outrank `x`. */
  lemma OutrankingSurvives(bucket: seq<Entry>, e: Entry, sorted: seq<Entry>, r: seq<Entry>, x: Entry)
    requires Outranks(bucket, x) && Sorted(sorted) && |sorted| == |bucket| + 1 && multiset(sorted) == multiset(bucket + [e])
    requires r == sorted[..TOP_K]
    ensures Outranks(r, x)
  {
    SameEntries(bucket + [e], sorted);
    forall y | y in r ensures y.score >= x.score {
      var i :| 0 <= i < TOP_K && sorted[i] == y;
      assert y in sorted;
      if y !in bucket && y.score < x.score {
        assert y == e;
        assert sorted[i + 1] in sorted;
        assert sorted[i].score >= sorted[i + 1].score;
        assert sorted[i + 1] == e;
        CountTwo(sorted, i, i + 1);
        assert false;
      }
    }
  }

  method InsertEntry(bucket: seq<Entry>, entry: Entry, ghost inserted: seq<Entry>) returns (r: seq<Entry>)
    requires IsTopK(bucket, inserted)
    ensures IsTopK(r, inserted + [entry])
  {
    var i := 0;
    while i < |bucket|
      invariant 0 <= i <= |bucket|
      invariant forall k :: 0 <= k < i ==> bucket[k].Rendered() != entry.Rendered()
    {
      if bucket[i].Rendered() == entry.Rendered() {
        if entry.score > bucket[i].score {
          ReplacedKeepsTopK(bucket, i, entry, inserted);
          return bucket[i := entry];
        }
        KeptKeepsTopK(bucket, i, entry, inserted);
        return bucket;
      }
      i := i + 1;
    }
    r := SortByScore(bucket + [entry]);
    PushedKeepsTopK(bucket, entry, inserted, r);
    if |r| > TOP_K {
      r := r[..TOP_K];
    }
  }
}
