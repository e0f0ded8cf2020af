/**
  Lifetime totals over whole runs of raw points: what accumulating one point at
  a time amounts to, in closed form.
 */
module LifetimeRollup {
  import opened Base
  import opened MetricTypes
  import opened HistogramBuckets
  import opened Accumulation

  // ----- One accumulation step

  function AccumulateSum(
      temporality: i32, monotonic: bool, total: NumberValue, previous: NumberValue, current: NumberValue, fp: Floats)
    : Result<(NumberValue, bool), RollupError>
  {
    if temporality != DELTA_TEMPORALITY && !monotonic then Ok((current, false)) else
    var (delta, reset) :=
      if temporality == DELTA_TEMPORALITY then (current, false) else NumberDelta(previous, current, fp);
    match NumberAdd(total, delta, fp)
    case Err(e) => Err(e)
    case Ok(sum) => Ok((sum, reset))
  }

  /** The step adds the whole current value: delta temporality, or a count that fell. */
  predicate Resets(temporality: i32, previous: HistogramCount, current: HistogramCount, fp: Floats)
  {
    temporality != DELTA_TEMPORALITY && CountDelta(previous, current, fp).None?
  }

  function Increment(previous: HistogramCount, current: HistogramCount, whole: bool, fp: Floats): Option<HistogramCount>
  {
    if whole then Some(current) else CountDelta(previous, current, fp)
  }

  function AddIncrement(
      total: HistogramCount, previous: HistogramCount, current: HistogramCount, whole: bool, fp: Floats)
    : Result<HistogramCount, RollupError>
  {
    match Increment(previous, current, whole, fp)
    case None => Err(CountRegressed)
    case Some(delta) => CountAdd(total, delta, fp)
  }

  function AccumulatedBits(
      temporality: i32, total: Option<u64>, previous: Option<u64>,
      current: Option<u64>, reset: bool, fp: Floats): Option<u64>
  {
    BitsAdd(total, if temporality == DELTA_TEMPORALITY then current else BitsDelta(previous, current, reset, fp), fp)
  }

  ghost function AccumulateExponential(
      temporality: i32, total: ExponentialHistogram,
      previous: ExponentialHistogram, current: ExponentialHistogram, fp: Floats)
    : Result<(ExponentialHistogram, bool), RollupError>
  {
    if total.scale != current.scale || previous.scale != current.scale then Err(ScaleChanged) else
    var reset := Resets(temporality, previous.count, current.count, fp);
    var whole := temporality == DELTA_TEMPORALITY || reset;
    match AddIncrement(total.zeroCount, previous.zeroCount, current.zeroCount, whole, fp)
    case Err(e) => Err(e)
    case Ok(zeroCount) =>
      match AddIncrement(total.count, previous.count, current.count, whole, fp)
      case Err(e) => Err(e)
      case Ok(count) =>
        match AddBuckets(total.positive, previous.positive, current.positive, whole, fp)
        case Err(e) => Err(e)
        case Ok(positive) =>
          match AddBuckets(total.negative, previous.negative, current.negative, whole, fp)
          case Err(e) => Err(e)
          case Ok(negative) =>
            Ok((ExponentialHistogram(
                  count, AccumulatedBits(temporality, total.sum, previous.sum, current.sum, reset, fp),
                  current.scale, zeroCount, positive, negative,
                  BitsPick(total.min, current.min, fp.min), BitsPick(total.max, current.max, fp.max),
                  current.zeroThreshold, current.resetHint), reset))
  }

  // ----- Runs of exponential histograms

  /** The total and the number of resets after accumulating all points. */
  ghost function RunHistogram(temporality: i32, points: seq<ExponentialHistogram>, fp: Floats)
    : Result<(ExponentialHistogram, nat), RollupError>
    requires points != []
  {
    var n := |points| - 1;
    if n == 0 then Ok((points[0], 0)) else
    match RunHistogram(temporality, points[..n], fp)
    case Err(e) => Err(e)
    case Ok(run) =>
      match AccumulateExponential(temporality, run.0, points[n - 1], points[n], fp)
      case Err(e) => Err(e)
      case Ok(step) => Ok((step.0, run.1 + if step.1 then 1 else 0))
  }

  /** A histogram whose counts are all integers and whose spans are well formed. */
  ghost predicate IntegerHistogram(h: ExponentialHistogram)
  {
    && h.count.CountInteger? && h.zeroCount.CountInteger?
    && Readable(h.positive) && IntegerMap(Meaning(h.positive))
    && Readable(h.negative) && IntegerMap(Meaning(h.negative))
  }

  /** Every observation is in the zero bucket or in exactly one other. */
  ghost predicate Balanced(h: ExponentialHistogram)
  {
    CountOf(h.count) == CountOf(h.zeroCount) + Observations(h.positive) + Observations(h.negative)
  }

  /** `total` has every bucket that `raw` has. */
  ghost predicate CoversBuckets(total: ExponentialHistogram, raw: ExponentialHistogram)
    requires IntegerHistogram(total) && IntegerHistogram(raw)
  {
    && Meaning(raw.positive).Keys <= Meaning(total.positive).Keys
    && Meaning(raw.negative).Keys <= Meaning(total.negative).Keys
  }

  /** The numbers that make up an integer histogram. */
  datatype Component = Count | Zero | Positive(i: int) | Negative(i: int)

  ghost function Part(h: ExponentialHistogram, c: Component): nat
    requires IntegerHistogram(h)
  {
    match c
    case Count => h.count.n
    case Zero => h.zeroCount.n
    case Positive(i) => At(Meaning(h.positive), i)
    case Negative(i) => At(Meaning(h.negative), i)
  }

  ghost predicate AllInteger(points: seq<ExponentialHistogram>)
  {
    forall i :: 0 <= i < |points| ==> IntegerHistogram(points[i])
  }

  /** Point `j` restarts the cumulative count. */
  predicate RestartsAt(points: seq<ExponentialHistogram>, j: nat)
    requires 0 < j < |points|
  {
    CountOf(points[j].count) < CountOf(points[j - 1].count)
  }

  function Restarts(points: seq<ExponentialHistogram>): nat
  {
    var n := |points| - 1;
    if n <= 0 then 0 else Restarts(points[..n]) + if RestartsAt(points, n) then 1 else 0
  }

  /** The sum over the restarts of the value reached just before. */
  ghost function BeforeRestarts(points: seq<ExponentialHistogram>, c: Component): nat
    requires AllInteger(points)
  {
    var n := |points| - 1;
    if n <= 0 then 0
    else BeforeRestarts(points[..n], c) + if RestartsAt(points, n) then Part(points[n - 1], c) else 0
  }

  ghost function SumOfParts(points: seq<ExponentialHistogram>, c: Component): nat
    requires AllInteger(points)
  {
    if points == [] then 0 else SumOfParts(points[..|points| - 1], c) + Part(points[|points| - 1], c)
  }

  /** What a lifetime total should be: all deltas, or the last value plus what each restart wiped out. */
  ghost function Lifetime(temporality: i32, points: seq<ExponentialHistogram>, c: Component): nat
    requires points != [] && AllInteger(points)
  {
    if temporality == DELTA_TEMPORALITY then SumOfParts(points, c)
    else Part(points[|points| - 1], c) + BeforeRestarts(points, c)
  }

  /** The step's effect on every component. */
  ghost predicate StepAdds(
      total: ExponentialHistogram, previous: ExponentialHistogram,
      current: ExponentialHistogram, whole: bool, next: ExponentialHistogram)
    requires IntegerHistogram(total) && IntegerHistogram(previous) && IntegerHistogram(current)
  {
    && IntegerHistogram(next) && CoversBuckets(next, current)
    && (!whole ==> forall c: Component :: Part(previous, c) <= Part(current, c))
    && forall c: Component ::
         Part(next, c) + (if whole then 0 else Part(previous, c)) == Part(total, c) + Part(current, c)
  }

  lemma {:induction false} HistogramStep(
      temporality: i32, total: ExponentialHistogram,
      previous: ExponentialHistogram, current: ExponentialHistogram, fp: Floats)
    requires IntegerHistogram(total) && IntegerHistogram(previous) && IntegerHistogram(current)
    requires CoversBuckets(total, previous)
    requires AccumulateExponential(temporality, total, previous, current, fp).Ok?
    ensures var (next, reset) := AccumulateExponential(temporality, total, previous, current, fp).value;
            && reset == (temporality != DELTA_TEMPORALITY && current.count.n < previous.count.n)
            && StepAdds(total, previous, current, temporality == DELTA_TEMPORALITY || reset, next)
  {
    hide AddBuckets, AddIncrement, Meaning, Expandable, IntegerMap, At, AccumulatedBits, BitsPick, Readable;
    var (next, reset) := AccumulateExponential(temporality, total, previous, current, fp).value;
    var whole := temporality == DELTA_TEMPORALITY || reset;
    CountStep(total.count, previous.count, current.count, whole, fp);
    CountStep(total.zeroCount, previous.zeroCount, current.zeroCount, whole, fp);
    BucketStep(total.positive, previous.positive, current.positive, whole, fp);
    BucketStep(total.negative, previous.negative, current.negative, whole, fp);
  }

  lemma {:induction false} CountStep(
      total: HistogramCount, previous: HistogramCount, current: HistogramCount, whole: bool, fp: Floats)
    requires total.CountInteger? && previous.CountInteger? && current.CountInteger?
    requires AddIncrement(total, previous, current, whole, fp).Ok?
    ensures var next := AddIncrement(total, previous, current, whole, fp).value;
            && next.CountInteger? && (!whole ==> previous.n <= current.n)
            && next.n + (if whole then 0 else previous.n) == total.n + current.n
  {
  }

  lemma {:induction false} BucketStep(
      total: Option<Buckets>, previous: Option<Buckets>, current: Option<Buckets>, whole: bool, fp: Floats)
    requires Readable(total) && Readable(previous) && Readable(current)
    requires IntegerMap(Meaning(total)) && IntegerMap(Meaning(previous)) && IntegerMap(Meaning(current))
    requires Meaning(previous).Keys <= Meaning(total).Keys
    requires AddBuckets(total, previous, current, whole, fp).Ok?
    ensures var next := AddBuckets(total, previous, current, whole, fp).value;
            && Readable(next) && IntegerMap(Meaning(next)) && Meaning(current).Keys <= Meaning(next).Keys
            && (!whole ==> forall i :: At(Meaning(previous), i) <= At(Meaning(current), i))
            && forall i :: At(Meaning(next), i) + (if whole then 0 else At(Meaning(previous), i)) ==
                           At(Meaning(total), i) + At(Meaning(current), i)
  {
    hide AddBuckets, Meaning, Expandable;
    AddBucketsExact(total, previous, current, whole, fp);
  }

  lemma {:induction false} StepKeepsBalance(
      temporality: i32, total: ExponentialHistogram,
      previous: ExponentialHistogram, current: ExponentialHistogram, fp: Floats)
    requires IntegerHistogram(total) && IntegerHistogram(previous) && IntegerHistogram(current)
    requires CoversBuckets(total, previous)
    requires AccumulateExponential(temporality, total, previous, current, fp).Ok?
    requires Balanced(total) && Balanced(previous) && Balanced(current)
    ensures Balanced(AccumulateExponential(temporality, total, previous, current, fp).value.0)
  {
    hide AddBuckets, AddIncrement, Meaning, Readable, IntegerMap, Observations;
    var (next, reset) := AccumulateExponential(temporality, total, previous, current, fp).value;
    var whole := temporality == DELTA_TEMPORALITY || reset;
    CountStep(total.count, previous.count, current.count, whole, fp);
    CountStep(total.zeroCount, previous.zeroCount, current.zeroCount, whole, fp);
    AddBucketsConserves(total.positive, previous.positive, current.positive, whole, fp);
    AddBucketsConserves(total.negative, previous.negative, current.negative, whole, fp);
  }

  /** Between restarts no component ever falls, so no bucket of a raw value disappears. */
  ghost predicate NothingDropped(points: seq<ExponentialHistogram>)
    requires AllInteger(points)
  {
    forall i, j, c: Component :: 0 <= i && j == i + 1 && j < |points| && !RestartsAt(points, j) ==>
      Part(points[i], c) <= Part(points[j], c)
  }

  /**
    For any successful run of integer exponential histograms: every component
    of the total equals its lifetime value, the total has every bucket of the
    last raw point, the reset count is the number of restarts, and if every raw
    point is balanced then so is the total.
   */
  lemma {:induction false} HistogramRun(temporality: i32, points: seq<ExponentialHistogram>, fp: Floats)
    requires points != [] && AllInteger(points) && RunHistogram(temporality, points, fp).Ok?
    ensures var (total, resets) := RunHistogram(temporality, points, fp).value;
            && IntegerHistogram(total) && CoversBuckets(total, points[|points| - 1])
            && (forall c: Component :: Part(total, c) == Lifetime(temporality, points, c))
            && (temporality != DELTA_TEMPORALITY ==> NothingDropped(points))
            && resets == (if temporality == DELTA_TEMPORALITY then 0 else Restarts(points))
            && ((forall i :: 0 <= i < |points| ==> Balanced(points[i])) ==> Balanced(total))
  {
    hide AccumulateExponential, IntegerHistogram, CoversBuckets, Balanced, Part, Lifetime, NothingDropped;
    var n := |points| - 1;
    if n == 0 {
      SelfCovers(points[0]);
      FirstLifetime(temporality, points);
    } else {
      var front := points[..n];
      assert forall i :: 0 <= i < n ==> front[i] == points[i];
      HistogramRun(temporality, front, fp);
      var total := RunHistogram(temporality, front, fp).value.0;
      HistogramStep(temporality, total, points[n - 1], points[n], fp);
      if forall i :: 0 <= i < |points| ==> Balanced(points[i]) {
        StepKeepsBalance(temporality, total, points[n - 1], points[n], fp);
      }
      IntegerCount(points[n - 1]);
      IntegerCount(points[n]);
      forall c: Component
        ensures Lifetime(temporality, points, c)
                + (if temporality == DELTA_TEMPORALITY || RestartsAt(points, n) then 0 else Part(points[n - 1], c))
                == Lifetime(temporality, front, c) + Part(points[n], c)
      {
        LifetimeStep(temporality, points, c);
      }
      if temporality != DELTA_TEMPORALITY { NothingDroppedStep(points); }
    }
  }

  lemma {:induction false} FirstLifetime(temporality: i32, points: seq<ExponentialHistogram>)
    requires |points| == 1 && AllInteger(points)
    ensures forall c: Component :: Part(points[0], c) == Lifetime(temporality, points, c)
    ensures NothingDropped(points)
  {
    hide IntegerHistogram, Part;
    forall c: Component ensures Part(points[0], c) == Lifetime(temporality, points, c) {
      assert points[..0] == [] && SumOfParts([], c) == 0 && BeforeRestarts(points, c) == 0;
      assert SumOfParts(points, c) == SumOfParts(points[..0], c) + Part(points[0], c);
    }
  }

  /** A point adds its increment, or all of itself when it is a delta or a restart. */
  lemma {:induction false} LifetimeStep(temporality: i32, points: seq<ExponentialHistogram>, c: Component)
    requires |points| > 1 && AllInteger(points)
    ensures var n := |points| - 1;
            Lifetime(temporality, points, c)
            + (if temporality == DELTA_TEMPORALITY || RestartsAt(points, n) then 0 else Part(points[n - 1], c))
            == Lifetime(temporality, points[..n], c) + Part(points[n], c)
  {
    hide IntegerHistogram, Part;
  }

  lemma {:induction false} NothingDroppedStep(points: seq<ExponentialHistogram>)
    requires |points| > 1 && AllInteger(points) && NothingDropped(points[..|points| - 1])
    requires var n := |points| - 1;
             !RestartsAt(points, n) ==> forall c: Component :: Part(points[n - 1], c) <= Part(points[n], c)
    ensures NothingDropped(points)
  {
    hide IntegerHistogram, Part;
    var n := |points| - 1;
    var front := points[..n];
    assert forall i :: 0 <= i < n ==> front[i] == points[i];
    forall i, j, c: Component | 0 <= i && j == i + 1 && j < |points| && !RestartsAt(points, j)
      ensures Part(points[i], c) <= Part(points[j], c)
    {
      if j < n { assert !RestartsAt(front, j) && Part(front[i], c) <= Part(front[j], c); }
    }
  }

  lemma {:induction false} SelfCovers(h: ExponentialHistogram)
    requires IntegerHistogram(h)
    ensures CoversBuckets(h, h)
  {
  }

  lemma {:induction false} IntegerCount(h: ExponentialHistogram)
    requires IntegerHistogram(h)
    ensures h.count.CountInteger? && CountOf(h.count) == h.count.n
  {
  }

  // ----- Runs of sums

  function RunSum(
      temporality: i32, monotonic: bool, points: seq<NumberValue>, fp: Floats): Result<(NumberValue, nat), RollupError>
    requires points != []
  {
    var n := |points| - 1;
    if n == 0 then Ok((points[0], 0)) else
    match RunSum(temporality, monotonic, points[..n], fp)
    case Err(e) => Err(e)
    case Ok(run) =>
      match AccumulateSum(temporality, monotonic, run.0, points[n - 1], points[n], fp)
      case Err(e) => Err(e)
      case Ok(step) => Ok((step.0, run.1 + if step.1 then 1 else 0))
  }

  predicate IntegerPoints(points: seq<NumberValue>)
  {
    forall i :: 0 <= i < |points| ==> points[i].Integer?
  }

  function Decreases(points: seq<NumberValue>): nat
    requires IntegerPoints(points)
  {
    var n := |points| - 1;
    if n <= 0 then 0 else Decreases(points[..n]) + if points[n].n < points[n - 1].n then 1 else 0
  }

  /** The sum of the raw values just before each decrease. */
  function BeforeDecreases(points: seq<NumberValue>): int
    requires IntegerPoints(points)
  {
    var n := |points| - 1;
    if n <= 0 then 0 else BeforeDecreases(points[..n]) + if points[n].n < points[n - 1].n then points[n - 1].n else 0
  }

  /** The mathematical lifetime value of a cumulative counter. */
  function LifetimeSum(points: seq<NumberValue>): int
    requires points != [] && IntegerPoints(points)
  {
    points[|points| - 1].n + BeforeDecreases(points)
  }

  /** A successful accumulating run keeps one representation, that of its first point. */
  lemma {:induction false} SumKeepsRepresentation(
      temporality: i32, monotonic: bool, points: seq<NumberValue>, fp: Floats)
    requires points != [] && points[0].Integer? && (temporality == DELTA_TEMPORALITY || monotonic)
    requires RunSum(temporality, monotonic, points, fp).Ok?
    ensures IntegerPoints(points) && RunSum(temporality, monotonic, points, fp).value.0.Integer?
  {
    var n := |points| - 1;
    if n > 0 {
      SumKeepsRepresentation(temporality, monotonic, points[..n], fp);
      assert forall i :: 0 <= i < n ==> points[i] == points[..n][i];
    }
  }

  /** The total differs from the lifetime value by a multiple of 2^64. */
  lemma {:induction false} SumWraps(temporality: i32, points: seq<NumberValue>, fp: Floats) returns (k: nat)
    requires points != [] && IntegerPoints(points) && temporality != DELTA_TEMPORALITY
    requires RunSum(temporality, true, points, fp).Ok? && RunSum(temporality, true, points, fp).value.0.Integer?
    ensures var (total, resets) := RunSum(temporality, true, points, fp).value;
            total.n + k * TWO_64 == LifetimeSum(points) && resets == Decreases(points)
  {
    var n := |points| - 1;
    if n == 0 {
      k := 0;
    } else {
      assert forall i :: 0 <= i < n ==> points[..n][i] == points[i];
      SumKeepsRepresentation(temporality, true, points[..n], fp);
      k := SumWraps(temporality, points[..n], fp);
      var p: int, c: int := points[n - 1].n, points[n].n;
      if c >= p && WrapI64(c - p) != c - p { k := k + 1; }
    }
  }

  /**
    For every successful run of a cumulative monotonic integer sum the reset
    count is the number of decreases, and the total is the last raw value plus
    the values just before each decrease, exactly when that number fits in i64.
   */
  lemma {:induction false} CumulativeSumRun(temporality: i32, points: seq<NumberValue>, fp: Floats)
    requires points != [] && points[0].Integer? && temporality != DELTA_TEMPORALITY
    requires RunSum(temporality, true, points, fp).Ok?
    ensures IntegerPoints(points)
    ensures RunSum(temporality, true, points, fp).value.1 == Decreases(points)
    ensures RunSum(temporality, true, points, fp).value.0.Integer?
    ensures RunSum(temporality, true, points, fp).value.0.n == LifetimeSum(points) <==>
            I64_MIN <= LifetimeSum(points) <= I64_MAX
  {
    SumKeepsRepresentation(temporality, true, points, fp);
    var k := SumWraps(temporality, points, fp);
    hide RunSum, LifetimeSum;
    if k > 0 { assert k * TWO_64 >= TWO_64; }
  }

  /** The subtraction does wrap: up, down to the least i64, and up again. */
  lemma WrappingExample(fp: Floats)
    ensures var points := [Integer(I64_MAX), Integer(I64_MIN), Integer(I64_MAX)];
            RunSum(2, true, points, fp) == Ok((Integer(-2), 1)) && LifetimeSum(points) == 2 * I64_MAX
  {
    var points := [Integer(I64_MAX), Integer(I64_MIN), Integer(I64_MAX)];
    assert points[..2][..1] == [Integer(I64_MAX)] && points[..1] == [Integer(I64_MAX)];
    assert RunSum(2, true, points[..1], fp) == Ok((Integer(I64_MAX), 0));
    assert RunSum(2, true, points[..2], fp) == Ok((Integer(-1), 1));
    assert BeforeDecreases(points[..2]) == I64_MAX;
  }
}
