/**
  Sparse exponential-histogram buckets: what spans mean, when they are well
  formed, and the rollup code's expansion of them.
 */
module HistogramBuckets {
  import opened Base
  import opened MetricTypes

  type BucketMap = map<int, HistogramCount>

  // ----- What spans mean

  function SpanEnd(spans: seq<Span>, k: nat): int
    requires k < |spans|
  {
    (if k == 0 then 0 else SpanEnd(spans, k - 1)) + spans[k].offset + spans[k].length
  }

  function SpanStart(spans: seq<Span>, k: nat): int
    requires k < |spans|
  {
    SpanEnd(spans, k) - spans[k].length
  }

  function Range(lo: int, hi: int): (r: seq<int>)
    requires lo <= hi
    ensures |r| == hi - lo
  {
    seq(hi - lo, i => lo + i)
  }

  /** The bucket index of every count of the first `k` spans, in order. */
  function Indices(spans: seq<Span>, k: nat): seq<int>
    requires k <= |spans|
  {
    if k == 0 then [] else Indices(spans, k - 1) + Range(SpanStart(spans, k - 1), SpanEnd(spans, k - 1))
  }

  function TotalLength(spans: seq<Span>, k: nat): nat
    requires k <= |spans|
  {
    if k == 0 then 0 else TotalLength(spans, k - 1) + spans[k - 1].length
  }

  predicate Distinct(indices: seq<int>)
  {
    forall i, j :: 0 <= i < j < |indices| ==> indices[i] != indices[j]
  }

  predicate InRange(indices: seq<int>)
  {
    forall i :: 0 <= i < |indices| ==> I32_MIN <= indices[i] <= I32_MAX
  }

  predicate SpansFit(spans: seq<Span>)
  {
    forall k :: 0 <= k < |spans| ==> I64_MIN <= SpanStart(spans, k) && SpanEnd(spans, k) <= I64_MAX
  }

  /** Exactly the buckets `expand_buckets` accepts. */
  predicate Expandable(b: Buckets)
  {
    var indices := Indices(b.spans, |b.spans|);
    && TotalLength(b.spans, |b.spans|) == |b.counts| <= U64_MAX
    && SpansFit(b.spans) && InRange(indices) && Distinct(indices)
  }

  /** Index to count, later pairs last. */
  function ZipMap(indices: seq<int>, counts: seq<HistogramCount>): BucketMap
    requires |indices| <= |counts|
  {
    if indices == [] then map[]
    else var n := |indices| - 1; ZipMap(indices[..n], counts)[indices[n] := counts[n]]
  }

  lemma {:induction false} IndicesLength(spans: seq<Span>, k: nat)
    requires k <= |spans|
    ensures |Indices(spans, k)| == TotalLength(spans, k)
  {
    if k > 0 { IndicesLength(spans, k - 1); }
  }

  /** The meaning of a set of buckets, absent ones being empty. */
  function Meaning(b: Option<Buckets>): BucketMap
    requires b.Some? ==> Expandable(b.value)
  {
    if b.None? then map[]
    else
      IndicesLength(b.value.spans, |b.value.spans|);
      ZipMap(Indices(b.value.spans, |b.value.spans|), b.value.counts)
  }

  lemma {:induction false} ZipMapKeys(indices: seq<int>, counts: seq<HistogramCount>)
    requires |indices| <= |counts|
    ensures forall x :: x in ZipMap(indices, counts) <==> x in indices
    ensures Distinct(indices) ==>
              forall i :: 0 <= i < |indices| ==> ZipMap(indices, counts)[indices[i]] == counts[i]
  {
    if indices != [] {
      var n := |indices| - 1;
      assert ZipMap(indices, counts) == ZipMap(indices[..n], counts)[indices[n] := counts[n]];
      hide ZipMap;
      ZipMapKeys(indices[..n], counts);
      assert indices == indices[..n] + [indices[n]];
      if Distinct(indices) {
        forall i | 0 <= i < n
          ensures indices[i] != indices[n] && ZipMap(indices[..n], counts)[indices[i]] == counts[i]
        {
          assert indices[..n][i] == indices[i];
        }
      }
    }
  }

  lemma {:induction false} IndicesPrefix(spans: seq<Span>, k: nat, n: nat)
    requires k <= n <= |spans|
    ensures Indices(spans, k) <= Indices(spans, n)
  {
    if k < n { IndicesPrefix(spans, k, n - 1); }
  }

  lemma {:induction false} ZipMapStep(indices: seq<int>, x: int, counts: seq<HistogramCount>)
    requires |indices| < |counts|
    ensures ZipMap(indices + [x], counts) == ZipMap(indices, counts)[x := counts[|indices|]]
  {
    assert (indices + [x])[..|indices|] == indices;
  }

  // ----- expand_buckets

  method SpanLengths(spans: seq<Span>) returns (r: Option<nat>)
    ensures r == if TotalLength(spans, |spans|) <= U64_MAX then Some(TotalLength(spans, |spans|)) else None
  {
    var total := 0;
    var k := 0;
    while k < |spans|
      invariant 0 <= k <= |spans| && total == TotalLength(spans, k) <= U64_MAX
    {
      total := total + spans[k].length;
      if total > U64_MAX {
        TotalLengthGrows(spans, k + 1, |spans|);
        return None;
      }
      k := k + 1;
    }
    r := Some(total);
  }

  lemma {:induction false} TotalLengthGrows(spans: seq<Span>, k: nat, n: nat)
    requires k <= n <= |spans|
    ensures TotalLength(spans, k) <= TotalLength(spans, n)
  {
    if k < n { TotalLengthGrows(spans, k, n - 1); }
  }

  /** One span's buckets, inserted in index order; stops at the first bad index. */
  method ExpandSpan(
      output: BucketMap, done: nat, start: int, end: int, counts: seq<HistogramCount>, ghost indices: seq<int>)
    returns (r: Result<BucketMap, RollupError>)
    requires start <= end && |indices| == done && done + (end - start) <= |counts|
    requires InRange(indices) && Distinct(indices) && output == ZipMap(indices, counts)
    ensures r.Ok? <==> InRange(indices + Range(start, end)) && Distinct(indices + Range(start, end))
    ensures r.Ok? ==> r.value == ZipMap(indices + Range(start, end), counts)
  {
    hide InRange, Distinct, ZipMap;
    var map' := output;
    var index := start;
    ghost var all := indices + Range(start, end);
    assert all[..done] == indices;
    while index < end
      invariant start <= index <= end
      invariant InRange(all[..done + (index - start)]) && Distinct(all[..done + (index - start)])
      invariant map' == ZipMap(all[..done + (index - start)], counts)
    {
      ghost var n := done + (index - start);
      assert all[n] == index;
      NextIndex(all, n);
      if index < I32_MIN || index > I32_MAX {
        return Err(IndexRange);
      }
      ZipMapKeys(all[..n], counts);
      if index in map' {
        return Err(SpanOverlap);
      }
      ZipMapStep(all[..n], index, counts);
      assert all[..n] + [index] == all[..n + 1];
      map' := map'[index := counts[done + (index - start)]];
      index := index + 1;
    }
    assert all[..done + (index - start)] == all;
    r := Ok(map');
  }

  lemma {:induction false} NextIndex(all: seq<int>, n: nat)
    requires n < |all| && InRange(all[..n]) && Distinct(all[..n])
    ensures all[n] < I32_MIN || all[n] > I32_MAX ==> !InRange(all)
    ensures all[n] in all[..n] ==> !Distinct(all)
    ensures I32_MIN <= all[n] <= I32_MAX && all[n] !in all[..n] ==> InRange(all[..n + 1]) && Distinct(all[..n + 1])
  {
    if all[n] in all[..n] {
      var i :| 0 <= i < n && all[..n][i] == all[n];
    }
    assert all[..n + 1] == all[..n] + [all[n]];
  }

  method ExpandBuckets(b: Option<Buckets>) returns (r: Result<BucketMap, RollupError>)
    ensures r.Ok? <==> b.None? || Expandable(b.value)
    ensures r.Ok? ==> r.value == Meaning(b)
  {
    hide InRange, Distinct, ZipMap, Range, Indices, TotalLength, SpanEnd;
    if b.None? {
      return Ok(map[]);
    }
    var Buckets(spans, counts) := b.value;
    ghost var all := Indices(spans, |spans|);
    IndicesLength(spans, |spans|);
    var expected := SpanLengths(spans);
    if expected.None? {
      return Err(SpanCounts);
    }
    if expected.value != |counts| {
      return Err(SpanCounts);
    }
    var output: BucketMap := map[];
    var done := 0;
    var priorEnd := 0;
    var k := 0;
    NothingYet(spans, counts);
    while k < |spans|
      invariant 0 <= k <= |spans| && done == TotalLength(spans, k) <= |counts|
      invariant priorEnd == if k == 0 then 0 else SpanEnd(spans, k - 1)
      invariant |Indices(spans, k)| == done && InRange(Indices(spans, k)) && Distinct(Indices(spans, k))
      invariant output == ZipMap(Indices(spans, k), counts)
      invariant forall j :: 0 <= j < k ==> I64_MIN <= SpanStart(spans, j) && SpanEnd(spans, j) <= I64_MAX
    {
      NextSpan(spans, k);
      var start := priorEnd + spans[k].offset;
      var end := start + spans[k].length;
      if start < I64_MIN || end > I64_MAX {
        return Err(SpanOverflow);
      }
      var next := ExpandSpan(output, done, start, end, counts, Indices(spans, k));
      if next.Err? {
        PrefixFails(Indices(spans, k + 1), all);
        return Err(next.error);
      }
      output := next.value;
      done := done + spans[k].length;
      priorEnd := end;
      k := k + 1;
    }
    r := Ok(output);
  }

  lemma {:induction false} NothingYet(spans: seq<Span>, counts: seq<HistogramCount>)
    ensures Indices(spans, 0) == [] && TotalLength(spans, 0) == 0
    ensures InRange([]) && Distinct([]) && ZipMap([], counts) == map[]
  {
  }

  lemma {:induction false} NextSpan(spans: seq<Span>, k: nat)
    requires k < |spans|
    ensures SpanStart(spans, k) == (if k == 0 then 0 else SpanEnd(spans, k - 1)) + spans[k].offset
    ensures SpanEnd(spans, k) == SpanStart(spans, k) + spans[k].length
    ensures Indices(spans, k + 1) == Indices(spans, k) + Range(SpanStart(spans, k), SpanEnd(spans, k))
    ensures TotalLength(spans, k + 1) == TotalLength(spans, k) + spans[k].length <= TotalLength(spans, |spans|)
    ensures |Indices(spans, k + 1)| == TotalLength(spans, k + 1)
    ensures Indices(spans, k + 1) <= Indices(spans, |spans|)
  {
    hide Range;
    IndicesPrefix(spans, k + 1, |spans|);
    IndicesLength(spans, k + 1);
    TotalLengthGrows(spans, k + 1, |spans|);
  }

  lemma {:induction false} PrefixFails(prefix: seq<int>, all: seq<int>)
    requires prefix <= all && !(InRange(prefix) && Distinct(prefix))
    ensures !(InRange(all) && Distinct(all))
  {
  }
}
