/**
  The exporter's sparse-bucket-to-span loop and its inverse in the rollup code:
  exactly which bucket lists survive the trip.
 */
module SpanExport {
  import opened Base
  import opened MetricTypes
  import opened HistogramBuckets
  import opened Sorting

  datatype Bucket = Bucket(index: i32, count: u64)

  function ByIndex(): (Bucket, Bucket) -> bool
  {
    (a: Bucket, b: Bucket) => a.index <= b.index
  }

  function PriorEnd(s: seq<Bucket>, k: nat): int
    requires k <= |s|
  {
    if k == 0 then 0 else s[k - 1].index + 1
  }

  /** `i32::try_from(gap).unwrap_or(i32::MAX)` */
  function ClampGap(gap: int): i32
  {
    if I32_MIN <= gap <= I32_MAX then gap else I32_MAX
  }

  function Lengthened(s: Span): Span { Span(s.offset, Min(s.length + 1, U32_MAX)) }

  /** The spans after the first `k` sorted buckets. */
  function SpansOf(s: seq<Bucket>, k: nat): (spans: seq<Span>)
    requires k <= |s|
    ensures k > 0 ==> spans != []
  {
    if k == 0 then [] else
      var spans, index, priorEnd := SpansOf(s, k - 1), s[k - 1].index, PriorEnd(s, k - 1);
      if spans != [] && index == priorEnd then
        var n := |spans| - 1; spans[n := Lengthened(spans[n])]
      else spans + [Span(ClampGap(if spans == [] then index else index - priorEnd), 1)]
  }

  function CountsOf(s: seq<Bucket>): (r: seq<HistogramCount>)
    ensures |r| == |s|
  {
    seq(|s|, i requires 0 <= i < |s| => CountInteger(s[i].count))
  }

  function IndicesOf(s: seq<Bucket>): (r: seq<int>)
    ensures |r| == |s|
  {
    seq(|s|, i requires 0 <= i < |s| => s[i].index as int)
  }

  function Encoded(s: seq<Bucket>): Option<Buckets>
  {
    if s == [] then None else Some(Buckets(SpansOf(s, |s|), CountsOf(s)))
  }

  /** The exporter: sort by index, then build spans and counts in one pass. */
  method ExportBuckets(sparse: seq<Bucket>) returns (b: Option<Buckets>)
    ensures b == Encoded(Sort(sparse, ByIndex()))
  {
    hide Sort, SpansOf;
    var sorted := Sort(sparse, ByIndex());
    if sorted == [] {
      return None;
    }
    var spans: seq<Span> := [];
    var counts: seq<HistogramCount> := [];
    var priorEnd := 0;
    var k := 0;
    assert SpansOf(sorted, 0) == [] by { SpansStep(sorted, 0); }
    while k < |sorted|
      invariant 0 <= k <= |sorted| && spans == SpansOf(sorted, k) && priorEnd == PriorEnd(sorted, k)
      invariant counts == CountsOf(sorted)[..k]
    {
      SpansStep(sorted, k);
      var index: int := sorted[k].index;
      if spans != [] && index == priorEnd {
        var last := |spans| - 1;
        spans := spans[last := Lengthened(spans[last])];
      } else {
        var offset := if spans == [] then index else index - priorEnd;
        spans := spans + [Span(ClampGap(offset), 1)];
      }
      counts := counts + [CountInteger(sorted[k].count)];
      priorEnd := index + 1;
      k := k + 1;
    }
    assert CountsOf(sorted)[..k] == CountsOf(sorted);
    b := Some(Buckets(spans, counts));
  }

  lemma {:induction false} SpansStep(s: seq<Bucket>, k: nat)
    requires k <= |s|
    ensures SpansOf(s, 0) == []
    ensures k < |s| ==>
              var spans, index, priorEnd := SpansOf(s, k), s[k].index, PriorEnd(s, k);
              SpansOf(s, k + 1) ==
                if spans != [] && index == priorEnd then spans[|spans| - 1 := Lengthened(spans[|spans| - 1])]
                else spans + [Span(ClampGap(if spans == [] then index else index - priorEnd), 1)]
  {
  }

  // ----- How spans grow

  lemma {:induction false} SamePrefix(a: seq<Span>, b: seq<Span>, k: nat)
    requires k <= |a| && k <= |b| && a[..k] == b[..k]
    ensures Indices(a, k) == Indices(b, k) && TotalLength(a, k) == TotalLength(b, k)
    ensures k > 0 ==> SpanEnd(a, k - 1) == SpanEnd(b, k - 1)
  {
    hide Range;
    if k > 0 {
      assert a[..k - 1] == a[..k][..k - 1] && b[..k - 1] == b[..k][..k - 1];
      assert a[k - 1] == a[..k][k - 1] && b[k - 1] == b[..k][k - 1];
      SamePrefix(a, b, k - 1);
    }
  }

  /** The state of a span list: its indices, its end and its total length. */
  ghost predicate Spells(spans: seq<Span>, indices: seq<int>, end: int)
  {
    && Indices(spans, |spans|) == indices && TotalLength(spans, |spans|) == |indices|
    && (spans != [] ==> SpanEnd(spans, |spans| - 1) == end)
    && (spans == [] ==> end == 0)
  }

  lemma {:induction false} Lengthen(spans: seq<Span>, indices: seq<int>, end: int)
    requires spans != [] && Spells(spans, indices, end) && spans[|spans| - 1].length < U32_MAX
    ensures Spells(spans[|spans| - 1 := Lengthened(spans[|spans| - 1])], indices + [end], end + 1)
  {
    var n := |spans| - 1;
    var spans' := spans[n := Lengthened(spans[n])];
    assert spans[..n] == spans'[..n];
    SamePrefix(spans, spans', n);
    assert SpanStart(spans', n) == SpanStart(spans, n);
    assert Range(SpanStart(spans, n), end + 1) == Range(SpanStart(spans, n), end) + [end];
  }

  lemma {:induction false} PushSpan(spans: seq<Span>, indices: seq<int>, end: int, offset: i32)
    requires Spells(spans, indices, end)
    ensures Spells(spans + [Span(offset, 1)], indices + [end + offset], end + offset + 1)
  {
    var spans' := spans + [Span(offset, 1)];
    SamePrefix(spans, spans', |spans|);
    assert Range(end + offset, end + offset + 1) == [end + offset];
  }

  lemma {:induction false} LastLength(spans: seq<Span>)
    requires spans != []
    ensures spans[|spans| - 1].length <= TotalLength(spans, |spans|)
  {
  }

  predicate NonDecreasing(s: seq<Bucket>)
  {
    forall i, j :: 0 <= i < j < |s| ==> s[i].index <= s[j].index
  }

  predicate StrictlyIncreasing(s: seq<Bucket>)
  {
    forall i, j :: 0 <= i < j < |s| ==> s[i].index < s[j].index
  }

  /** Every jump from one bucket past the previous one fits in i32. */
  ghost predicate GapsFit(s: seq<Bucket>)
  {
    forall i, j :: 0 <= i && j == i + 1 && j < |s| ==> s[j].index - (s[i].index + 1) <= I32_MAX
  }

  /** One bucket more: the index it is given, whatever the gap. */
  lemma {:induction false} SpansGrow(s: seq<Bucket>, k: nat, indices: seq<int>, end: int) returns (x: int)
    requires k < |s| && k < U32_MAX && |indices| == k && Spells(SpansOf(s, k), indices, end)
    ensures Spells(SpansOf(s, k + 1), indices + [x], x + 1)
    ensures end == PriorEnd(s, k) && ClampGap(s[k].index - end) == s[k].index - end ==> x == s[k].index
    ensures k > 0 && end == PriorEnd(s, k) && s[k].index - end > I32_MAX ==> x == end + I32_MAX
  {
    hide Indices, TotalLength, SpanEnd, SpansOf;
    SpansStep(s, k);
    assert k > 0 ==> SpansOf(s, k) != [];
    var spans := SpansOf(s, k);
    if spans != [] && s[k].index == PriorEnd(s, k) {
      LastLength(spans);
      Lengthen(spans, indices, end);
      x := end;
    } else {
      var offset := ClampGap(if spans == [] then s[k].index else s[k].index - PriorEnd(s, k));
      PushSpan(spans, indices, end, offset);
      x := end + offset;
    }
  }

  /** While gaps fit, the spans spell exactly the bucket indices. */
  lemma {:induction false} SpansSpellIndices(s: seq<Bucket>, k: nat)
    requires k <= |s| && k <= U32_MAX && NonDecreasing(s[..k]) && GapsFit(s[..k])
    ensures Spells(SpansOf(s, k), IndicesOf(s[..k]), PriorEnd(s, k))
  {
    hide Spells, SpansOf;
    if k == 0 {
      assert Spells([], [], 0) by { SpellNothing(); }
      SpansStep(s, 0);
      assert IndicesOf(s[..0]) == [];
    } else {
      assert s[..k][..k - 1] == s[..k - 1];
      assert forall i :: 0 <= i < k ==> s[..k][i] == s[i];
      SpansSpellIndices(s, k - 1);
      assert k > 1 ==> s[k - 1].index - (s[k - 2].index + 1) <= I32_MAX;
      var x := SpansGrow(s, k - 1, IndicesOf(s[..k - 1]), PriorEnd(s, k - 1));
      assert IndicesOf(s[..k]) == IndicesOf(s[..k - 1]) + [s[k - 1].index];
    }
  }

  lemma {:induction false} SpellNothing()
    ensures Spells([], [], 0)
  {
  }

  // ----- What survives the trip

  /** The bucket map a list stands for. */
  function BucketsOf(s: seq<Bucket>): BucketMap
  {
    ZipMap(IndicesOf(s), CountsOf(s))
  }

  ghost predicate RoundTrips(s: seq<Bucket>)
  {
    var b := Encoded(s);
    (b.Some? ==> Expandable(b.value)) && Meaning(b) == BucketsOf(s)
  }

  lemma {:induction false} SpansNonEmpty(s: seq<Bucket>, k: nat)
    requires k <= |s|
    ensures forall j :: 0 <= j < |SpansOf(s, k)| ==> SpansOf(s, k)[j].length > 0
  {
    if k > 0 { SpansNonEmpty(s, k - 1); }
  }

  lemma {:induction false} NonEmptySpansFit(spans: seq<Span>)
    requires forall j :: 0 <= j < |spans| ==> spans[j].length > 0
    requires InRange(Indices(spans, |spans|))
    ensures SpansFit(spans)
  {
    hide Indices, SpanEnd;
    var all := Indices(spans, |spans|);
    forall k | 0 <= k < |spans| ensures I64_MIN <= SpanStart(spans, k) && SpanEnd(spans, k) <= I64_MAX {
      NextSpan(spans, k);
      var n, m := |Indices(spans, k)|, |Indices(spans, k + 1)|;
      assert all[n] == Indices(spans, k + 1)[n] == SpanStart(spans, k);
      assert all[m - 1] == Indices(spans, k + 1)[m - 1] == SpanEnd(spans, k) - 1;
    }
  }

  lemma {:induction false} FittingRoundTrips(s: seq<Bucket>)
    requires NonDecreasing(s) && GapsFit(s) && |s| <= U32_MAX
    ensures RoundTrips(s) <==> StrictlyIncreasing(s)
  {
    hide SpansOf, ZipMap, Indices, TotalLength, SpanEnd, SpansFit;
    if s == [] {
      assert IndicesOf(s) == [];
      assert ZipMap([], []) == map[] by { NothingYet([], []); }
    } else {
      assert s[..|s|] == s;
      SpansSpellIndices(s, |s|);
      SpansNonEmpty(s, |s|);
      NonEmptySpansFit(SpansOf(s, |s|));
      DistinctIsStrict(s);
    }
  }

  lemma {:induction false} DistinctIsStrict(s: seq<Bucket>)
    requires NonDecreasing(s)
    ensures Distinct(IndicesOf(s)) <==> StrictlyIncreasing(s)
  {
    forall i, j | 0 <= i < j < |s| ensures IndicesOf(s)[i] != IndicesOf(s)[j] <==> s[i].index < s[j].index {}
  }

  /** Indices already spelled stay as later buckets are added. */
  lemma {:induction false} SpelledStays(s: seq<Bucket>, k: nat, n: nat, indices: seq<int>, end: int)
    returns (all: seq<int>, end': int)
    requires k <= n <= |s| && n <= U32_MAX && |indices| == k && Spells(SpansOf(s, k), indices, end)
    ensures |all| == n && indices <= all && Spells(SpansOf(s, n), all, end')
  {
    hide Spells, SpansOf;
    if k == n {
      all, end' := indices, end;
    } else {
      all, end' := SpelledStays(s, k, n - 1, indices, end);
      var x := SpansGrow(s, n - 1, all, end');
      all, end' := all + [x], x + 1;
    }
  }

  /** A gap too wide for i32 is clamped, and a bucket appears where there was none. */
  lemma {:induction false} WideGapIsLost(s: seq<Bucket>, j: nat)
    requires StrictlyIncreasing(s) && |s| <= U32_MAX
    requires 0 < j < |s| && s[j].index - (s[j - 1].index + 1) > I32_MAX
    ensures !RoundTrips(s)
  {
    hide Spells, SpansOf, ZipMap, SpansFit;
    assert forall i :: 0 <= i < j ==> s[..j][i] == s[i];
    assert forall i :: 0 <= i < j ==> s[i].index < 0;
    SpansSpellIndices(s, j);
    var x := SpansGrow(s, j, IndicesOf(s[..j]), PriorEnd(s, j));
    var all, end := SpelledStays(s, j + 1, |s|, IndicesOf(s[..j]) + [x], x + 1);
    assert all[j] == x;
    if Expandable(Encoded(s).value) {
      StrayKey(s, all, end, x);
      assert s[j - 1].index < x < s[j].index;
      ZipMapKeys(IndicesOf(s), CountsOf(s));
      assert x !in IndicesOf(s);
    }
  }

  lemma {:induction false} StrayKey(s: seq<Bucket>, all: seq<int>, end: int, x: int)
    requires s != [] && Expandable(Encoded(s).value) && Spells(SpansOf(s, |s|), all, end) && x in all
    ensures x in Meaning(Encoded(s))
  {
    hide SpansOf, ZipMap;
    IndicesLength(SpansOf(s, |s|), |SpansOf(s, |s|)|);
    ZipMapKeys(all, CountsOf(s));
  }

  /** More than u32::MAX buckets must be all of i32, one run whose length cannot be written. */
  lemma {:induction false} FullRangeIsLost(s: seq<Bucket>)
    requires StrictlyIncreasing(s) && |s| > U32_MAX
    ensures !RoundTrips(s)
  {
    hide SpansOf;
    IndexAtLeast(s, |s| - 1);
    FullRun(s, |s|);
    var spans := SpansOf(s, |s|);
    assert TotalLength(spans, 1) == TotalLength(spans, 0) + spans[0].length;
  }

  lemma {:induction false} IndexAtLeast(s: seq<Bucket>, i: nat)
    requires StrictlyIncreasing(s) && i < |s|
    ensures s[i].index >= I32_MIN + i
  {
    if i > 0 { IndexAtLeast(s, i - 1); }
  }

  lemma {:induction false} IndexAtMost(s: seq<Bucket>, i: nat)
    requires StrictlyIncreasing(s) && i < |s|
    ensures s[i].index <= I32_MAX - (|s| - 1 - i)
    decreases |s| - i
  {
    if i < |s| - 1 { IndexAtMost(s, i + 1); }
  }

  lemma {:induction false} FullRun(s: seq<Bucket>, k: nat)
    requires StrictlyIncreasing(s) && |s| > U32_MAX && 0 < k <= |s|
    ensures |SpansOf(s, k)| == 1 && SpansOf(s, k)[0].length == Min(k, U32_MAX)
  {
    hide SpansOf;
    SpansStep(s, k - 1);
    if k > 1 {
      FullRun(s, k - 1);
      IndexAtLeast(s, k - 1);
      IndexAtMost(s, k - 1);
      IndexAtLeast(s, k - 2);
      IndexAtMost(s, k - 2);
    }
  }

  /**
    The exporter and the rollup's expansion are inverse on a sorted list of
    distinct buckets exactly when every gap fits in i32 and the list is not the
    whole of i32.
   */
  lemma {:induction false} RoundTripsExactly(s: seq<Bucket>)
    requires StrictlyIncreasing(s)
    ensures RoundTrips(s) <==> GapsFit(s) && |s| <= U32_MAX
  {
    hide RoundTrips;
    if |s| > U32_MAX {
      FullRangeIsLost(s);
    } else if GapsFit(s) {
      FittingRoundTrips(s);
    } else {
      var i, j :| 0 <= i && j == i + 1 && j < |s| && s[j].index - (s[i].index + 1) > I32_MAX;
      WideGapIsLost(s, j);
    }
  }

  /** Buckets two apart by more than i32::MAX: the concrete failure. */
  lemma WideGapExample()
    ensures !RoundTrips([Bucket(I32_MIN, 1), Bucket(I32_MAX, 2)])
  {
    WideGapIsLost([Bucket(I32_MIN, 1), Bucket(I32_MAX, 2)], 1);
  }

  // ----- From any visiting order

  predicate DistinctBuckets(sparse: seq<Bucket>)
  {
    forall i, j :: 0 <= i < j < |sparse| ==> sparse[i].index != sparse[j].index
  }

  /** The map of a list with distinct indices, whatever its order. */
  ghost predicate IsMapOf(m: BucketMap, sparse: seq<Bucket>)
  {
    && (forall b :: b in sparse ==> (b.index as int) in m && m[b.index] == CountInteger(b.count))
    && (forall x :: x in m ==> exists b :: b in sparse && b.index == x)
  }

  lemma {:induction false} SortedBuckets(sparse: seq<Bucket>)
    requires DistinctBuckets(sparse)
    ensures var s := Sort(sparse, ByIndex());
            StrictlyIncreasing(s) && multiset(s) == multiset(sparse) && IsMapOf(BucketsOf(s), sparse)
  {
    hide Sort, ZipMap;
    var s := Sort(sparse, ByIndex());
    SortSorted(sparse, ByIndex());
    SortElements(sparse, ByIndex());
    DistinctAsMultiset(sparse, s);
    assert Distinct(IndicesOf(s));
    ZipMapKeys(IndicesOf(s), CountsOf(s));
    forall b | b in sparse ensures (b.index as int) in BucketsOf(s) && BucketsOf(s)[b.index] == CountInteger(b.count) {
      assert b in multiset(s);
      var i :| 0 <= i < |s| && s[i] == b;
      assert IndicesOf(s)[i] == b.index;
    }
    forall x | x in BucketsOf(s) ensures exists b :: b in sparse && b.index == x {
      var i :| 0 <= i < |s| && IndicesOf(s)[i] == x;
      assert s[i] in multiset(sparse);
    }
  }

  lemma {:induction false} DistinctAsMultiset(a: seq<Bucket>, b: seq<Bucket>)
    requires DistinctBuckets(a) && multiset(a) == multiset(b)
    ensures DistinctBuckets(b)
  {
    forall i, j | 0 <= i < j < |b| ensures b[i].index != b[j].index {
      if b[i].index == b[j].index {
        TwoPositions(a, b, i, j);
      }
    }
  }

  lemma {:induction false} TwoPositions(a: seq<Bucket>, b: seq<Bucket>, i: nat, j: nat)
    requires DistinctBuckets(a) && multiset(a) == multiset(b) && i < j < |b|
    ensures b[i].index != b[j].index
  {
    assert b[i] in multiset(a) && b[j] in multiset(a);
    if b[i] == b[j] {
      TwiceCounts(b, i, j);
      OnceEach(a, b[j]);
    }
  }

  /** For buckets with distinct indices in any order, expanding the export restores the map iff gaps fit. */
  lemma {:induction false} ExportRoundTrip(sparse: seq<Bucket>)
    requires DistinctBuckets(sparse)
    ensures var s := Sort(sparse, ByIndex());
            var b := Encoded(s);
            (b.Some? ==> Expandable(b.value)) && IsMapOf(Meaning(b), sparse) <==> GapsFit(s) && |s| <= U32_MAX
  {
    hide Sort, Expandable, Meaning, Encoded, BucketsOf;
    var s := Sort(sparse, ByIndex());
    SortedBuckets(sparse);
    RoundTripsExactly(s);
    if Encoded(s).None? || Expandable(Encoded(s).value) {
      if IsMapOf(Meaning(Encoded(s)), sparse) {
        MapOfIsUnique(Meaning(Encoded(s)), BucketsOf(s), sparse);
      }
    }
  }

  lemma {:induction false} MapOfIsUnique(a: BucketMap, b: BucketMap, sparse: seq<Bucket>)
    requires IsMapOf(a, sparse) && IsMapOf(b, sparse)
    ensures a == b
  {
    forall x ensures x in a <==> x in b {}
    forall x | x in a ensures a[x] == b[x] {
      var c :| c in sparse && c.index == x;
    }
  }
}
