/**
  Reset-aware accumulation of metric values into lifetime totals: scalar sums
  and exponential histograms, as pure functions, with the methods that carry
  the source's loops proved against them.
 */
module Accumulation {
  import opened Base
  import opened MetricTypes
  import opened HistogramBuckets

  const MAX_BUCKETS: nat := 1_000_000

  // ----- Scalars

  /** Two's-complement wrap-around of a 64-bit difference. */
  function WrapI64(x: int): i64
    requires x + TWO_64 > 0 && x < TWO_64
  {
    if x > I64_MAX then x - TWO_64 else if x < I64_MIN then x + TWO_64 else x
  }

  function NumberDelta(previous: NumberValue, current: NumberValue, fp: Floats): (NumberValue, bool)
  {
    match (previous, current)
    case (Integer(p), Integer(c)) =>
      if c >= p then (Integer(WrapI64(c - p)), false) else (current, true)
    case (DoubleBits(p), DoubleBits(c)) =>
      if fp.atLeast(c, p) then (DoubleBits(fp.sub(c, p)), false) else (current, true)
    case _ => (current, true)
  }

  function NumberAdd(left: NumberValue, right: NumberValue, fp: Floats): Result<NumberValue, RollupError>
  {
    match (left, right)
    case (Integer(l), Integer(r)) => if I64_MIN <= l + r <= I64_MAX then Ok(Integer(l + r)) else Err(Overflow)
    case (DoubleBits(l), DoubleBits(r)) => Ok(DoubleBits(fp.add(l, r)))
    case _ => Err(RepresentationChanged)
  }

  function NumberMin(left: NumberValue, right: NumberValue, fp: Floats): NumberValue
  {
    match (left, right)
    case (Integer(l), Integer(r)) => Integer(Min(l, r))
    case (DoubleBits(l), DoubleBits(r)) => DoubleBits(fp.min(l, r))
    case _ => right
  }

  function NumberMax(left: NumberValue, right: NumberValue, fp: Floats): NumberValue
  {
    match (left, right)
    case (Integer(l), Integer(r)) => Integer(Max(l, r))
    case (DoubleBits(l), DoubleBits(r)) => DoubleBits(fp.max(l, r))
    case _ => right
  }

  function CountAdd(left: HistogramCount, right: HistogramCount, fp: Floats): Result<HistogramCount, RollupError>
  {
    match (left, right)
    case (CountInteger(l), CountInteger(r)) => if l + r <= U64_MAX then Ok(CountInteger(l + r)) else Err(Overflow)
    case (CountDouble(l), CountDouble(r)) => Ok(CountDouble(fp.add(l, r)))
    case _ => Err(RepresentationChanged)
  }

  function CountDelta(previous: HistogramCount, current: HistogramCount, fp: Floats): Option<HistogramCount>
  {
    match (previous, current)
    case (CountInteger(p), CountInteger(c)) => if c >= p then Some(CountInteger(c - p)) else None
    case (CountDouble(p), CountDouble(c)) => if fp.atLeast(c, p) then Some(CountDouble(fp.sub(c, p))) else None
    case _ => None
  }

  function BitsAdd(left: Option<u64>, right: Option<u64>, fp: Floats): Option<u64>
  {
    if left.Some? && right.Some? then Some(fp.add(left.value, right.value)) else None
  }

  function BitsDelta(previous: Option<u64>, current: Option<u64>, reset: bool, fp: Floats): Option<u64>
  {
    if current.None? || reset then current
    else if previous.None? then None
    else Some(fp.sub(current.value, previous.value))
  }

  function BitsPick(left: Option<u64>, right: Option<u64>, pick: (u64, u64) -> u64): Option<u64>
  {
    if left.Some? && right.Some? then Some(pick(left.value, right.value))
    else if left.Some? then left else right
  }

  // ----- Buckets

  function Lookup(m: BucketMap, i: int, zero: HistogramCount): HistogramCount
  {
    if i in m then m[i] else zero
  }

  ghost predicate IsLeast(x: int, s: set<int>) { x in s && forall y :: y in s ==> x <= y }

  ghost predicate IsGreatest(x: int, s: set<int>) { x in s && forall y :: y in s ==> y <= x }

  lemma {:induction false} EmptyOrInhabited(s: set<int>)
    ensures s == {} || exists m :: m in s
  {
    if forall m :: m !in s { assert s == {}; }
  }

  lemma {:induction false} LeastExists(s: set<int>) returns (x: int)
    requires s != {}
    ensures IsLeast(x, s)
  {
    EmptyOrInhabited(s);
    var m: int :| m in s;
    x := m;
    assert forall y :: y in s ==> y == m || y in s - {m};
    if s - {m} != {} {
      var y := LeastExists(s - {m});
      if y < m { x := y; }
    }
  }

  lemma {:induction false} GreatestExists(s: set<int>) returns (x: int)
    requires s != {}
    ensures IsGreatest(x, s)
  {
    EmptyOrInhabited(s);
    var m: int :| m in s;
    x := m;
    assert forall y :: y in s ==> y == m || y in s - {m};
    if s - {m} != {} {
      var y := GreatestExists(s - {m});
      if y > m { x := y; }
    }
  }

  ghost function Least(s: set<int>): (x: int)
    requires s != {}
    ensures IsLeast(x, s)
  {
    assert exists x :: IsLeast(x, s) by { var x := LeastExists(s); }
    var x :| IsLeast(x, s);
    x
  }

  ghost function Greatest(s: set<int>): (x: int)
    requires s != {}
    ensures IsGreatest(x, s)
  {
    assert exists x :: IsGreatest(x, s) by { var x := GreatestExists(s); }
    var x :| IsGreatest(x, s);
    x
  }

  /** The zero of the first count found: total's, then previous', then current's. */
  ghost function ZeroOf(total: BucketMap, previous: BucketMap, current: BucketMap): HistogramCount
  {
    var first :=
      if total != map[] then total[Least(total.Keys)]
      else if previous != map[] then previous[Least(previous.Keys)]
      else if current != map[] then current[Least(current.Keys)]
      else CountInteger(0);
    if first.CountInteger? then CountInteger(0) else CountDouble(0)
  }

  function BucketDelta(
      previous: BucketMap, current: BucketMap, i: int,
      zero: HistogramCount, whole: bool, fp: Floats): Option<HistogramCount>
  {
    if whole then Some(Lookup(current, i, zero))
    else CountDelta(Lookup(previous, i, zero), Lookup(current, i, zero), fp)
  }

  function BucketSum(
      total: BucketMap, previous: BucketMap, current: BucketMap, i: int, zero: HistogramCount, whole: bool, fp: Floats)
    : Result<HistogramCount, RollupError>
  {
    match BucketDelta(previous, current, i, zero, whole, fp)
    case None => Err(CountRegressed)
    case Some(delta) => CountAdd(Lookup(total, i, zero), delta, fp)
  }

  /** The new counts of buckets `first` up to but not including `end`. */
  function BucketSums(
      total: BucketMap, previous: BucketMap, current: BucketMap,
      first: int, end: int, zero: HistogramCount, whole: bool, fp: Floats)
    : (r: Result<seq<HistogramCount>, RollupError>)
    requires first <= end
    ensures r.Ok? ==> |r.value| == end - first
    decreases end - first
  {
    if first == end then Ok([]) else
    match BucketSums(total, previous, current, first, end - 1, zero, whole, fp)
    case Err(e) => Err(e)
    case Ok(front) =>
      match BucketSum(total, previous, current, end - 1, zero, whole, fp)
      case Err(e) => Err(e)
      case Ok(count) => Ok(front + [count])
  }

  predicate Readable(b: Option<Buckets>) { b.Some? ==> Expandable(b.value) }

  lemma {:induction false} MeaningInRange(b: Option<Buckets>)
    requires Readable(b)
    ensures forall i :: i in Meaning(b) ==> I32_MIN <= i <= I32_MAX
  {
    hide Indices, ZipMap, SpansFit, TotalLength;
    if b.Some? {
      IndicesLength(b.value.spans, |b.value.spans|);
      ZipMapKeys(Indices(b.value.spans, |b.value.spans|), b.value.counts);
    }
  }

  /** `add_buckets`: total plus the increment from previous to current, bucket by bucket. */
  ghost function AddBuckets(
      total: Option<Buckets>, previous: Option<Buckets>, current: Option<Buckets>, whole: bool, fp: Floats)
    : Result<Option<Buckets>, RollupError>
  {
    if !Readable(total) || !Readable(previous) || !Readable(current) then Err(SpanCounts) else
    hide Expandable, Meaning, ZeroOf;
    var t, p, c := Meaning(total), Meaning(previous), Meaning(current);
    if t == map[] && c == map[] then Ok(None) else
    MeaningInRange(total); MeaningInRange(current);
    var first, last := Least(t.Keys + c.Keys), Greatest(t.Keys + c.Keys);
    if last - first + 1 > MAX_BUCKETS then Err(TooManyBuckets) else
    match BucketSums(t, p, c, first, last + 1, ZeroOf(t, p, c), whole, fp)
    case Err(e) => Err(e)
    case Ok(counts) => Ok(Some(Buckets([Span(first, last - first + 1)], counts)))
  }

  // ----- Integer buckets

  ghost predicate IntegerMap(m: BucketMap)
  {
    forall i :: i in m ==> m[i].CountInteger?
  }

  /** The integer count of a bucket, absent buckets counting zero. */
  function At(m: BucketMap, i: int): nat
  {
    if i in m && m[i].CountInteger? then m[i].n else 0
  }

  lemma {:induction false} IntegerZero(t: BucketMap, p: BucketMap, c: BucketMap)
    requires IntegerMap(t) && IntegerMap(p) && IntegerMap(c)
    ensures ZeroOf(t, p, c) == CountInteger(0)
  {
  }

  lemma {:induction false} IntegerBucketSum(t: BucketMap, p: BucketMap, c: BucketMap, i: int, whole: bool, fp: Floats)
    requires IntegerMap(t) && IntegerMap(p) && IntegerMap(c)
    requires BucketSum(t, p, c, i, CountInteger(0), whole, fp).Ok?
    ensures !whole ==> At(c, i) >= At(p, i)
    ensures BucketSum(t, p, c, i, CountInteger(0), whole, fp).value.CountInteger?
    ensures BucketSum(t, p, c, i, CountInteger(0), whole, fp).value.n ==
            At(t, i) + (if whole then At(c, i) else At(c, i) - At(p, i))
  {
  }

  lemma {:induction false} BucketSumsAt(
      t: BucketMap, p: BucketMap, c: BucketMap, first: int, end: int,
      zero: HistogramCount, whole: bool, fp: Floats, i: int)
    requires first <= i < end && BucketSums(t, p, c, first, end, zero, whole, fp).Ok?
    ensures BucketSum(t, p, c, i, zero, whole, fp) ==
      Ok(BucketSums(t, p, c, first, end, zero, whole, fp).value[i - first])
    decreases end - first
  {
    hide BucketSum;
    if i < end - 1 { BucketSumsAt(t, p, c, first, end - 1, zero, whole, fp, i); }
  }

  lemma {:induction false} ConsecutiveIndices(first: int, n: nat)
    requires I32_MIN <= first && first + n - 1 <= I32_MAX
    ensures var r := Range(first, first + n);
            && Distinct(r) && InRange(r)
            && (forall i :: 0 <= i < n ==> r[i] == first + i)
            && (forall x :: x in r <==> first <= x < first + n)
  {
    var r := Range(first, first + n);
    forall x | first <= x < first + n ensures x in r { assert r[x - first] == x; }
  }

  lemma {:induction false} SingleSpanShape(first: i32, n: nat)
    requires 0 < n <= MAX_BUCKETS && first + n - 1 <= I32_MAX
    ensures var spans := [Span(first, n)];
            Indices(spans, 1) == Range(first, first + n) && TotalLength(spans, 1) == n && SpansFit(spans)
  {
    hide Range;
    var spans := [Span(first, n)];
    assert SpanStart(spans, 0) == first && SpanEnd(spans, 0) == first + n;
    assert Indices(spans, 1) == Indices(spans, 0) + Range(first, first + n);
    assert TotalLength(spans, 1) == TotalLength(spans, 0) + n;
  }

  /** One span of consecutive counts means exactly those counts. */
  lemma {:induction false} SingleSpan(first: i32, counts: seq<HistogramCount>)
    requires 0 < |counts| <= MAX_BUCKETS && first + |counts| - 1 <= I32_MAX
    ensures var b := Buckets([Span(first, |counts|)], counts);
            && Expandable(b)
            && (forall i :: i in Meaning(Some(b)) <==> first <= i < first + |counts|)
            && (forall i :: first <= i < first + |counts| ==> Meaning(Some(b))[i] == counts[i - first])
  {
    hide ZipMap, Range, Indices, TotalLength, SpansFit, Distinct, InRange;
    var indices := Range(first, first + |counts|);
    SingleSpanShape(first, |counts|);
    ConsecutiveIndices(first, |counts|);
    ZipMapKeys(indices, counts);
    var m := ZipMap(indices, counts);
    forall i | first <= i < first + |counts| ensures m[i] == counts[i - first] {
      assert indices[i - first] == i;
    }
  }

  /** What one successful bucket accumulation does, bucket by bucket. */
  ghost predicate AddsTo(t: BucketMap, p: BucketMap, c: BucketMap, whole: bool, m: BucketMap)
  {
    && IntegerMap(m) && t.Keys + c.Keys <= m.Keys
    && (!whole ==> forall i :: At(c, i) >= At(p, i))
    && (forall i :: At(m, i) == At(t, i) + (if whole then At(c, i) else At(c, i) - At(p, i)))
  }

  /** Accumulated counts over a range that holds every bucket of total and current. */
  lemma {:induction false} RangeAdds(
      t: BucketMap, p: BucketMap, c: BucketMap, first: int, last: int, whole: bool, fp: Floats, m: BucketMap)
    requires IntegerMap(t) && IntegerMap(p) && IntegerMap(c) && p.Keys <= t.Keys && first <= last
    requires forall i :: i in t || i in c ==> first <= i <= last
    requires BucketSums(t, p, c, first, last + 1, CountInteger(0), whole, fp).Ok?
    requires forall i :: i in m <==> first <= i <= last
    requires var counts := BucketSums(t, p, c, first, last + 1, CountInteger(0), whole, fp).value;
             forall i :: first <= i <= last ==> m[i] == counts[i - first]
    ensures AddsTo(t, p, c, whole, m)
  {
    hide BucketSums, BucketSum;
    forall i
      ensures i in m ==> m[i].CountInteger?
      ensures !whole ==> At(c, i) >= At(p, i)
      ensures At(m, i) == At(t, i) + (if whole then At(c, i) else At(c, i) - At(p, i))
    {
      if first <= i <= last {
        BucketSumsAt(t, p, c, first, last + 1, CountInteger(0), whole, fp, i);
        IntegerBucketSum(t, p, c, i, whole, fp);
      }
    }
    assert IntegerMap(m);
    assert forall i :: i in t.Keys + c.Keys ==> i in m.Keys;
  }

  /**
    If the total already covers every bucket of the previous raw value, then a
    successful accumulation adds exactly the increment to every bucket, and the
    new total covers every bucket of the current raw value.
   */
  lemma {:induction false} AddBucketsExact(
      total: Option<Buckets>, previous: Option<Buckets>,
      current: Option<Buckets>, whole: bool, fp: Floats)
    requires Readable(total) && Readable(previous) && Readable(current)
    requires IntegerMap(Meaning(total)) && IntegerMap(Meaning(previous)) && IntegerMap(Meaning(current))
    requires Meaning(previous).Keys <= Meaning(total).Keys
    requires AddBuckets(total, previous, current, whole, fp).Ok?
    ensures var r := AddBuckets(total, previous, current, whole, fp).value;
            Readable(r) && AddsTo(Meaning(total), Meaning(previous), Meaning(current), whole, Meaning(r))
  {
    hide Expandable, Meaning, ZeroOf, BucketSums, BucketSum, AddsTo, IntegerMap;
    var t, p, c := Meaning(total), Meaning(previous), Meaning(current);
    if t == map[] && c == map[] {
      NoMeaning();
      NothingAdds(p, whole);
    } else {
      MeaningInRange(total);
      MeaningInRange(current);
      IntegerZero(t, p, c);
      var first, last := Least(t.Keys + c.Keys), Greatest(t.Keys + c.Keys);
      var counts := BucketSums(t, p, c, first, last + 1, CountInteger(0), whole, fp).value;
      SingleSpan(first, counts);
      var m := Meaning(Some(Buckets([Span(first, last - first + 1)], counts)));
      RangeAdds(t, p, c, first, last, whole, fp, m);
    }
  }

  lemma {:induction false} NothingAdds(p: BucketMap, whole: bool)
    requires p.Keys <= {}
    ensures AddsTo(map[], p, map[], whole, map[])
  {
    assert forall i :: i !in p;
  }

  lemma {:induction false} NoMeaning()
    ensures Meaning(None) == map[]
  {
  }

  // ----- Sums over buckets

  function SumOver(m: BucketMap, lo: int, hi: int): nat
    requires lo <= hi
    decreases hi - lo
  {
    if lo == hi then 0 else SumOver(m, lo, hi - 1) + At(m, hi - 1)
  }

  lemma {:induction false} SumOverUpdate(m: BucketMap, k: int, n: u64, lo: int, hi: int)
    requires lo <= hi && k !in m
    ensures SumOver(m[k := CountInteger(n)], lo, hi) == SumOver(m, lo, hi) + if lo <= k < hi then n else 0
    decreases hi - lo
  {
    if lo < hi { SumOverUpdate(m, k, n, lo, hi - 1); }
  }

  lemma {:induction false} SumOverEmpty(lo: int, hi: int)
    requires lo <= hi
    ensures SumOver(map[], lo, hi) == 0
    decreases hi - lo
  {
    if lo < hi { SumOverEmpty(lo, hi - 1); }
  }

  function CountOf(c: HistogramCount): nat { if c.CountInteger? then c.n else 0 }

  function SumOf(counts: seq<HistogramCount>): nat
  {
    if counts == [] then 0 else SumOf(counts[..|counts| - 1]) + CountOf(counts[|counts| - 1])
  }

  /** The number of observations in a set of buckets. */
  function Observations(b: Option<Buckets>): nat
  {
    if b.None? then 0 else SumOf(b.value.counts)
  }

  lemma {:induction false} SumOverZip(indices: seq<int>, counts: seq<HistogramCount>, lo: int, hi: int)
    requires |indices| <= |counts| && Distinct(indices) && lo <= hi
    requires forall i :: 0 <= i < |indices| ==> lo <= indices[i] < hi && counts[i].CountInteger?
    ensures SumOver(ZipMap(indices, counts), lo, hi) == SumOf(counts[..|indices|])
  {
    if indices == [] {
      SumOverEmpty(lo, hi);
      assert counts[..0] == [];
    } else {
      var n := |indices| - 1;
      SumOverZip(indices[..n], counts, lo, hi);
      ZipMapKeys(indices[..n], counts);
      SumOverUpdate(ZipMap(indices[..n], counts), indices[n], counts[n].n, lo, hi);
      assert counts[..n + 1][..n] == counts[..n];
    }
  }

  lemma {:induction false} SumOverMeaning(b: Option<Buckets>, lo: int, hi: int)
    requires Readable(b) && IntegerMap(Meaning(b)) && lo <= hi
    requires forall i :: i in Meaning(b) ==> lo <= i < hi
    ensures SumOver(Meaning(b), lo, hi) == Observations(b)
  {
    hide Indices, ZipMap, SumOver, SumOf;
    if b.None? {
      SumOverEmpty(lo, hi);
    } else {
      var indices, counts := Indices(b.value.spans, |b.value.spans|), b.value.counts;
      IndicesLength(b.value.spans, |b.value.spans|);
      ZipMapKeys(indices, counts);
      forall i | 0 <= i < |indices| ensures lo <= indices[i] < hi && counts[i].CountInteger? {
        assert indices[i] in Meaning(b) && Meaning(b)[indices[i]] == counts[i];
      }
      SumOverZip(indices, counts, lo, hi);
      assert counts[..|indices|] == counts;
    }
  }

  lemma {:induction false} SumOverAdds(
      t: BucketMap, p: BucketMap, c: BucketMap, whole: bool, m: BucketMap, lo: int, hi: int)
    requires lo <= hi && AddsTo(t, p, c, whole, m)
    ensures SumOver(m, lo, hi) + (if whole then 0 else SumOver(p, lo, hi)) == SumOver(t, lo, hi) + SumOver(c, lo, hi)
    decreases hi - lo
  {
    if lo < hi { SumOverAdds(t, p, c, whole, m, lo, hi - 1); }
  }

  /** Accumulating buckets adds exactly the increment in observations. */
  lemma {:induction false} AddBucketsConserves(
      total: Option<Buckets>, previous: Option<Buckets>,
      current: Option<Buckets>, whole: bool, fp: Floats)
    requires Readable(total) && Readable(previous) && Readable(current)
    requires IntegerMap(Meaning(total)) && IntegerMap(Meaning(previous)) && IntegerMap(Meaning(current))
    requires Meaning(previous).Keys <= Meaning(total).Keys
    requires AddBuckets(total, previous, current, whole, fp).Ok?
    ensures Observations(AddBuckets(total, previous, current, whole, fp).value) +
      (if whole then 0 else Observations(previous))
            == Observations(total) + Observations(current)
  {
    hide AddBuckets, Meaning, Expandable, SumOver, AddsTo;
    var r := AddBuckets(total, previous, current, whole, fp).value;
    AddBucketsExact(total, previous, current, whole, fp);
    MeaningInRange(total); MeaningInRange(previous); MeaningInRange(current); MeaningInRange(r);
    var lo, hi := I32_MIN, I32_MAX + 1;
    assert IntegerMap(Meaning(r)) by {
      AddsToInteger(Meaning(total), Meaning(previous), Meaning(current), whole, Meaning(r));
    }
    SumOverMeaning(total, lo, hi); SumOverMeaning(previous, lo, hi);
    SumOverMeaning(current, lo, hi); SumOverMeaning(r, lo, hi);
    SumOverAdds(Meaning(total), Meaning(previous), Meaning(current), whole, Meaning(r), lo, hi);
  }

  lemma {:induction false} AddsToInteger(t: BucketMap, p: BucketMap, c: BucketMap, whole: bool, m: BucketMap)
    requires AddsTo(t, p, c, whole, m)
    ensures IntegerMap(m)
  {
  }

  // ----- The bucket loop

  method KeyRange(keys: set<int>) returns (first: int, last: int)
    requires keys != {}
    ensures first == Least(keys) && last == Greatest(keys)
  {
    EmptyOrInhabited(keys);
    var start: int :| start in keys;
    first, last := start, start;
    var left := keys - {start};
    while left != {}
      invariant left <= keys && first in keys && last in keys
      invariant forall y :: y in keys && y !in left ==> first <= y <= last
      decreases left
    {
      EmptyOrInhabited(left);
      var k: int :| k in left;
      if k < first { first := k; }
      if k > last { last := k; }
      left := left - {k};
    }
  }

  method ZeroCount(total: BucketMap, previous: BucketMap, current: BucketMap) returns (zero: HistogramCount)
    ensures zero == ZeroOf(total, previous, current)
  {
    var first := CountInteger(0);
    if total != map[] {
      var least, _ := KeyRange(total.Keys);
      first := total[least];
    } else if previous != map[] {
      var least, _ := KeyRange(previous.Keys);
      first := previous[least];
    } else if current != map[] {
      var least, _ := KeyRange(current.Keys);
      first := current[least];
    }
    zero := if first.CountInteger? then CountInteger(0) else CountDouble(0);
  }

  method SumBuckets(
      total: BucketMap, previous: BucketMap, current: BucketMap,
      first: int, end: int, zero: HistogramCount, whole: bool, fp: Floats)
    returns (r: Result<seq<HistogramCount>, RollupError>)
    requires first <= end
    ensures r == BucketSums(total, previous, current, first, end, zero, whole, fp)
  {
    hide BucketSum;
    var counts: seq<HistogramCount> := [];
    var index := first;
    while index < end
      invariant first <= index <= end
      invariant BucketSums(total, previous, current, first, index, zero, whole, fp) == Ok(counts)
    {
      var count := BucketSum(total, previous, current, index, zero, whole, fp);
      if count.Err? {
        BucketSumsFail(total, previous, current, first, index + 1, end, zero, whole, fp);
        return Err(count.error);
      }
      counts := counts + [count.value];
      index := index + 1;
    }
    r := Ok(counts);
  }

  lemma {:induction false} BucketSumsFail(
      t: BucketMap, p: BucketMap, c: BucketMap, first: int, k: int,
      end: int, zero: HistogramCount, whole: bool, fp: Floats)
    requires first <= k <= end && BucketSums(t, p, c, first, k, zero, whole, fp).Err?
    ensures BucketSums(t, p, c, first, end, zero, whole, fp) == BucketSums(t, p, c, first, k, zero, whole, fp)
    decreases end - k
  {
    hide BucketSum;
    if k < end { BucketSumsFail(t, p, c, first, k + 1, end, zero, whole, fp); }
  }

  /** `add_buckets` as the source runs it. */
  method AddBucketsInOrder(
      total: Option<Buckets>, previous: Option<Buckets>, current: Option<Buckets>, whole: bool, fp: Floats)
    returns (r: Result<Option<Buckets>, RollupError>)
    ensures r.Ok? <==> AddBuckets(total, previous, current, whole, fp).Ok?
    ensures r.Ok? ==> r == AddBuckets(total, previous, current, whole, fp)
  {
    hide Expandable, Meaning, ZeroOf, BucketSums;
    var t := ExpandBuckets(total);
    if t.Err? {
      return Err(t.error);
    }
    var p := ExpandBuckets(previous);
    if p.Err? {
      return Err(p.error);
    }
    var c := ExpandBuckets(current);
    if c.Err? {
      return Err(c.error);
    }
    if t.value == map[] && c.value == map[] {
      return Ok(None);
    }
    MeaningInRange(total);
    MeaningInRange(current);
    var zero := ZeroCount(t.value, p.value, c.value);
    EitherKeys(t.value, c.value);
    var first, last := KeyRange(t.value.Keys + c.value.Keys);
    if last - first + 1 > MAX_BUCKETS {
      return Err(TooManyBuckets);
    }
    var counts := SumBuckets(t.value, p.value, c.value, first, last + 1, zero, whole, fp);
    if counts.Err? {
      return Err(counts.error);
    }
    r := Ok(Some(Buckets([Span(first, last - first + 1)], counts.value)));
  }

  lemma {:induction false} EitherKeys(t: BucketMap, c: BucketMap)
    requires t != map[] || c != map[]
    ensures t.Keys + c.Keys != {}
  {
    if t != map[] { assert t.Keys != {}; } else { assert c.Keys != {}; }
  }
}
