/** Metric values, kinds and identities as the rollup code sees them. */
module MetricTypes {
  import opened Base

  /** A scalar: a signed integer, or the bits of a double. */
  datatype NumberValue = Integer(n: i64) | DoubleBits(bits: u64)

  datatype HistogramCount = CountInteger(n: u64) | CountDouble(bits: u64)

  /** The gap from the previous span's end (or the first bucket), and a run length. */
  datatype Span = Span(offset: i32, length: u32)

  datatype Buckets = Buckets(spans: seq<Span>, counts: seq<HistogramCount>)

  datatype ExponentialHistogram = ExponentialHistogram(
    count: HistogramCount, sum: Option<u64>, scale: i32, zeroCount: HistogramCount,
    positive: Option<Buckets>, negative: Option<Buckets>,
    min: Option<u64>, max: Option<u64>, zeroThreshold: u64, resetHint: i32)

  datatype MetricValue =
    | GaugeValue(number: NumberValue)
    | SumValue(number: NumberValue)
    | ExponentialValue(histogram: ExponentialHistogram)

  datatype MetricKind =
    | GaugeKind
    | SumKind(temporality: i32, monotonic: bool)
    | ExponentialKind(temporality: i32)

  const DELTA_TEMPORALITY: i32 := 1

  /** Double arithmetic on bit patterns, left abstract. */
  datatype Floats = Floats(
    add: (u64, u64) -> u64, sub: (u64, u64) -> u64, atLeast: (u64, u64) -> bool,
    min: (u64, u64) -> u64, max: (u64, u64) -> u64)

  datatype RollupError =
    | CheckpointGap | OffsetExhausted | SeriesLimit
    | IdentityChanged | KindChanged | Overflow | RepresentationChanged
    | ScaleChanged
    | CountRegressed | SpanCounts | SpanOverflow | IndexRange | SpanOverlap | TooManyBuckets
}
