/**
  The lifetime rollup catalog: write-ahead-log batches applied per partition,
  each point exactly once, and what the stored rollups then hold.
 */
module RollupCatalog {
  import opened Base
  import opened MetricTypes
  import opened Accumulation
  import opened LifetimeRollup

  datatype MetricIdentity = MetricIdentity(
    tenant: string, name: string, unit: string, kind: MetricKind, attributes: seq<(string, string)>)

  datatype Point = Point(identity: MetricIdentity, description: string, timestamp: u64, value: MetricValue)

  datatype RollupState = RollupState(
    identity: MetricIdentity, description: string, first: u64, last: u64, observed: u64, resets: u64,
    outcome: MetricValue, min: Option<NumberValue>, max: Option<NumberValue>, lastRaw: MetricValue)

  type Fingerprint = nat
  type Rollups = map<Fingerprint, RollupState>

  /** The configured series limit, double arithmetic, and the identity hash. */
  datatype Environment = Environment(maxSeries: nat, fp: Floats, fingerprint: MetricIdentity -> Fingerprint)

  function SaturatingIncrement(x: u64): u64 { if x == U64_MAX then x else x + 1 }

  // ----- One point

  ghost function Accumulate(
      kind: MetricKind, lifetime: MetricValue, previous: MetricValue, current: MetricValue, fp: Floats)
    : Result<(MetricValue, bool), RollupError>
  {
    match (kind, lifetime, previous, current)
    case (GaugeKind, _, _, GaugeValue(_)) => Ok((current, false))
    case (SumKind(temporality, monotonic), SumValue(t), SumValue(p), SumValue(c)) =>
      (match AccumulateSum(temporality, monotonic, t, p, c, fp)
       case Err(e) => Err(e)
       case Ok(step) => Ok((SumValue(step.0), step.1)))
    case (ExponentialKind(temporality), ExponentialValue(t), ExponentialValue(p), ExponentialValue(c)) =>
      (match AccumulateExponential(temporality, t, p, c, fp)
       case Err(e) => Err(e)
       case Ok(step) => Ok((ExponentialValue(step.0), step.1)))
    case _ => Err(KindChanged)
  }

  function Extreme(
      current: Option<NumberValue>, value: MetricValue,
      pick: (NumberValue, NumberValue) -> NumberValue): Option<NumberValue>
  {
    if !value.GaugeValue? then current
    else if current.None? then Some(value.number)
    else Some(pick(current.value, value.number))
  }

  function FirstState(point: Point): RollupState
  {
    var gauge := if point.value.GaugeValue? then Some(point.value.number) else None;
    RollupState(point.identity, point.description, point.timestamp, point.timestamp, 1, 0,
                point.value, gauge, gauge, point.value)
  }

  function NextState(state: RollupState, point: Point, outcome: MetricValue, reset: bool, fp: Floats): RollupState
  {
    RollupState(state.identity, point.description,
                Min(state.first, point.timestamp), Max(state.last, point.timestamp),
                SaturatingIncrement(state.observed),
                if reset then SaturatingIncrement(state.resets) else state.resets,
                outcome,
                Extreme(state.min, point.value, (l, r) => NumberMin(l, r, fp)),
                Extreme(state.max, point.value, (l, r) => NumberMax(l, r, fp)),
                point.value)
  }

  ghost function UpdateState(state: RollupState, point: Point, fp: Floats): Result<RollupState, RollupError>
  {
    if state.identity != point.identity then Err(IdentityChanged) else
    match Accumulate(point.identity.kind, state.outcome, state.lastRaw, point.value, fp)
    case Err(e) => Err(e)
    case Ok(step) => Ok(NextState(state, point, step.0, step.1, fp))
  }

  ghost function ApplyPoint(rollups: Rollups, point: Point, env: Environment): Result<Rollups, RollupError>
  {
    var series := env.fingerprint(point.identity);
    if series in rollups then
      match UpdateState(rollups[series], point, env.fp)
      case Err(e) => Err(e)
      case Ok(state) => Ok(rollups[series := state])
    else if |rollups| >= env.maxSeries then Err(SeriesLimit)
    else Ok(rollups[series := FirstState(point)])
  }

  // ----- Batches of a partition log

  datatype Entry = Entry(partition: TopicPartition, offset: u64, point: Point)

  type Checkpoints = map<TopicPartition, u64>

  /** Applying logged points one after another. */
  ghost function Replay(base: Rollups, trace: seq<Entry>, env: Environment): Result<Rollups, RollupError>
  {
    if trace == [] then Ok(base) else
    match Replay(base, trace[..|trace| - 1], env)
    case Err(e) => Err(e)
    case Ok(rollups) => ApplyPoint(rollups, trace[|trace| - 1].point, env)
  }

  datatype Batch = Batch(partition: TopicPartition, first: u64, points: seq<Point>)

  function Expected(checkpoints: Checkpoints, b: Batch): u64
  {
    if b.partition in checkpoints then checkpoints[b.partition] else b.first
  }

  /** The batch starts after the checkpoint. */
  predicate HasGap(checkpoints: Checkpoints, b: Batch)
  {
    b.partition in checkpoints && b.first > checkpoints[b.partition]
  }

  predicate OffsetsFit(b: Batch) { b.first + |b.points| <= U64_MAX }

  /** The log entries a batch carries from offset `from` up to its point number `n`. */
  function EntriesFrom(b: Batch, from: nat, n: nat): (r: seq<Entry>)
    requires b.first <= from && n <= |b.points| && OffsetsFit(b)
    ensures |r| == if b.first + n <= from then 0 else b.first + n - from
  {
    if b.first + n <= from then []
    else
      seq(b.first + n - from,
        i requires 0 <= i < b.first + n - from => Entry(b.partition, from + i, b.points[from - b.first + i]))
  }

  datatype Progress = Progress(checkpoints: Checkpoints, trace: seq<Entry>)

  predicate Accepts(s: Progress, b: Batch)
  {
    !HasGap(s.checkpoints, b) && OffsetsFit(b)
  }

  /** What a successful batch does: incorporate from the checkpoint on, and move it up. */
  function Advance(s: Progress, b: Batch): (s': Progress)
    requires Accepts(s, b)
    ensures forall p :: p in s.checkpoints ==> p in s'.checkpoints && s.checkpoints[p] <= s'.checkpoints[p]
  {
    var expected := Expected(s.checkpoints, b);
    Progress(s.checkpoints[b.partition := Max(expected, b.first + |b.points|)],
             s.trace + EntriesFrom(b, expected, |b.points|))
  }

  /** The batch's first point at or past the checkpoint exists and can be incorporated. */
  ghost predicate TakesFirst(base: Rollups, s: Progress, b: Batch, env: Environment)
  {
    var expected := Expected(s.checkpoints, b);
    && !HasGap(s.checkpoints, b) && expected - b.first < |b.points| && expected < U64_MAX
    && Replay(base, s.trace + [Entry(b.partition, expected, b.points[expected - b.first])], env).Ok?
  }

  lemma {:induction false} FirstTaken(base: Rollups, s: Progress, b: Batch, env: Environment)
    requires !HasGap(s.checkpoints, b) && Expected(s.checkpoints, b) - b.first < |b.points|
    ensures var expected := Expected(s.checkpoints, b);
            TakesFirst(base, s, b, env) <==>
            expected < U64_MAX &&
              Replay(base, s.trace + [Entry(b.partition, expected, b.points[expected - b.first])], env).Ok?
  {
    hide Replay;
  }

  lemma {:induction false} NoneTaken(base: Rollups, s: Progress, b: Batch, env: Environment)
    ensures HasGap(s.checkpoints, b) ==> !TakesFirst(base, s, b, env)
  {
  }

  /** Everything added to a trace belongs to one partition. */
  ghost predicate AddedFor(before: seq<Entry>, after: seq<Entry>, p: TopicPartition)
    requires before <= after
  {
    forall e :: e in after[|before|..] ==> e.partition == p
  }

  lemma {:induction false} NothingAdded(trace: seq<Entry>, p: TopicPartition)
    ensures AddedFor(trace, trace, p)
  {
  }

  lemma {:induction false} AddedOne(before: seq<Entry>, after: seq<Entry>, e: Entry)
    requires before <= after && AddedFor(before, after, e.partition)
    ensures before <= after + [e] && AddedFor(before, after + [e], e.partition)
  {
    assert (after + [e])[|before|..] == after[|before|..] + [e];
  }

  lemma {:induction false} NextEntry(b: Batch, from: nat, n: nat)
    requires b.first <= from && n < |b.points| && OffsetsFit(b)
    ensures EntriesFrom(b, from, n + 1) ==
            if b.first + n < from then EntriesFrom(b, from, n)
            else EntriesFrom(b, from, n) + [Entry(b.partition, b.first + n, b.points[n])]
  {
  }

  lemma {:induction false} ReplayNext(base: Rollups, trace: seq<Entry>, e: Entry, env: Environment)
    ensures Replay(base, trace + [e], env) ==
            match Replay(base, trace, env)
            case Err(error) => Err(error)
            case Ok(rollups) => ApplyPoint(rollups, e.point, env)
  {
    hide ApplyPoint;
    assert (trace + [e])[..|trace|] == trace;
  }

  lemma {:induction false} ReplayFails(base: Rollups, trace: seq<Entry>, more: seq<Entry>, env: Environment)
    requires Replay(base, trace, env).Err?
    ensures Replay(base, trace + more, env).Err?
  {
    hide ApplyPoint;
    if more == [] {
      assert trace + more == trace;
    } else {
      var n := |more| - 1;
      ReplayFails(base, trace, more[..n], env);
      assert trace + more == (trace + more[..n]) + [more[n]];
      ReplayNext(base, trace + more[..n], more[n], env);
    }
  }

  // ----- The catalog

  method AccumulateHistogram(
      temporality: i32, total: ExponentialHistogram,
      previous: ExponentialHistogram, current: ExponentialHistogram, fp: Floats)
    returns (r: Result<(ExponentialHistogram, bool), RollupError>)
    ensures r.Ok? <==> AccumulateExponential(temporality, total, previous, current, fp).Ok?
    ensures r.Ok? ==> r == AccumulateExponential(temporality, total, previous, current, fp)
  {
    hide AddBuckets, CountAdd, CountDelta;
    if total.scale != current.scale || previous.scale != current.scale {
      return Err(ScaleChanged);
    }
    var reset := temporality != DELTA_TEMPORALITY && CountDelta(previous.count, current.count, fp).None?;
    var whole := temporality == DELTA_TEMPORALITY || reset;
    var zeroCount := AddIncrement(total.zeroCount, previous.zeroCount, current.zeroCount, whole, fp);
    if zeroCount.Err? {
      return Err(zeroCount.error);
    }
    var count := AddIncrement(total.count, previous.count, current.count, whole, fp);
    if count.Err? {
      return Err(count.error);
    }
    var positive := AddBucketsInOrder(total.positive, previous.positive, current.positive, whole, fp);
    if positive.Err? {
      return Err(positive.error);
    }
    var negative := AddBucketsInOrder(total.negative, previous.negative, current.negative, whole, fp);
    if negative.Err? {
      return Err(negative.error);
    }
    r := Ok((ExponentialHistogram(
               count.value, AccumulatedBits(temporality, total.sum, previous.sum, current.sum, reset, fp),
               current.scale, zeroCount.value, positive.value, negative.value,
               BitsPick(total.min, current.min, fp.min), BitsPick(total.max, current.max, fp.max),
               current.zeroThreshold, current.resetHint), reset));
  }

  method AccumulateValue(
      kind: MetricKind, lifetime: MetricValue, previous: MetricValue, current: MetricValue, fp: Floats)
    returns (r: Result<(MetricValue, bool), RollupError>)
    ensures r.Ok? <==> Accumulate(kind, lifetime, previous, current, fp).Ok?
    ensures r.Ok? ==> r == Accumulate(kind, lifetime, previous, current, fp)
  {
    hide AccumulateExponential, AccumulateSum;
    match (kind, lifetime, previous, current)
    case (GaugeKind, _, _, GaugeValue(_)) =>
      r := Ok((current, false));
    case (SumKind(temporality, monotonic), SumValue(t), SumValue(p), SumValue(c)) =>
      var step := AccumulateSum(temporality, monotonic, t, p, c, fp);
      r := if step.Err? then Err(step.error) else Ok((SumValue(step.value.0), step.value.1));
    case (ExponentialKind(temporality), ExponentialValue(t), ExponentialValue(p), ExponentialValue(c)) =>
      var step := AccumulateHistogram(temporality, t, p, c, fp);
      r := if step.Err? then Err(step.error) else Ok((ExponentialValue(step.value.0), step.value.1));
    case _ =>
      r := Err(KindChanged);
  }

  class MetricRollupCatalog {
    const env: Environment
    var checkpoints: Checkpoints
    var rollups: Rollups
    var incorporated: u64
    ghost const base: Rollups
    ghost var trace: seq<Entry>

    /** The rollups are the replay, in order, of everything incorporated since `base`. */
    ghost predicate Valid()
      reads this
    {
      Replay(base, trace, env) == Ok(rollups)
    }

    constructor (env: Environment, checkpoints: Checkpoints, rollups: Rollups)
      ensures Valid() && this.env == env && base == rollups && trace == [] && this.checkpoints == checkpoints
    {
      this.env, this.checkpoints, this.rollups, incorporated := env, checkpoints, rollups, 0;
      base, trace := rollups, [];
    }

    ghost function Progressed(): Progress
      reads this
    {
      Progress(checkpoints, trace)
    }

    method IncorporatePoint(point: Point, ghost partition: TopicPartition, ghost offset: u64)
      returns (r: Result<(), RollupError>)
      requires Valid()
      modifies this`rollups, this`trace
      ensures Valid()
      ensures r.Ok? <==> Replay(base, old(trace) + [Entry(partition, offset, point)], env).Ok?
      ensures trace == if r.Ok? then old(trace) + [Entry(partition, offset, point)] else old(trace)
    {
      hide Accumulate, NextState;
      ReplayNext(base, trace, Entry(partition, offset, point), env);
      var series := env.fingerprint(point.identity);
      if series in rollups {
        var state := rollups[series];
        if state.identity != point.identity {
          return Err(IdentityChanged);
        }
        var step := AccumulateValue(point.identity.kind, state.outcome, state.lastRaw, point.value, env.fp);
        if step.Err? {
          return Err(step.error);
        }
        rollups := rollups[series := NextState(state, point, step.value.0, step.value.1, env.fp)];
      } else {
        if |rollups| >= env.maxSeries {
          return Err(SeriesLimit);
        }
        rollups := rollups[series := FirstState(point)];
      }
      trace := trace + [Entry(partition, offset, point)];
      r := Ok(());
    }

    /**
      `apply_batch`. A successful call advances the progress by exactly this
      batch; a failing one leaves the checkpoints alone but may keep the points
      it had already incorporated.
     */
    method ApplyBatch(b: Batch) returns (r: Result<(), RollupError>)
      requires Valid()
      modifies this
      ensures Valid()
      ensures r.Ok? <==> Accepts(old(Progressed()), b) && Replay(base, Advance(old(Progressed()), b).trace, env).Ok?
      ensures r.Ok? ==> Progressed() == Advance(old(Progressed()), b)
      ensures r.Err? ==> checkpoints == old(checkpoints)
      ensures old(trace) <= trace && AddedFor(old(trace), trace, b.partition)
      ensures r.Err? ==> (trace != old(trace) <==> TakesFirst(base, old(Progressed()), b, env))
      ensures HasGap(old(checkpoints), b) ==> r == Err(CheckpointGap) && trace == old(trace)
    {
      hide Replay, EntriesFrom, TakesFirst, AddedFor;
      var expected := Expected(checkpoints, b);
      NothingAdded(trace, b.partition);
      NoneTaken(base, Progressed(), b, env);
      if HasGap(checkpoints, b) {
        return Err(CheckpointGap);
      }
      var next := b.first;
      var i := 0;
      ghost var s := Progressed();
      assert old(trace) == trace + (if OffsetsFit(b) then EntriesFrom(b, expected, 0) else []) by {
        if OffsetsFit(b) { NoEntries(b, expected); }
      }
      while i < |b.points|
        invariant 0 <= i <= |b.points| && Valid() && checkpoints == old(checkpoints)
        invariant next == b.first + i <= U64_MAX && old(trace) <= trace
        invariant OffsetsFit(b) ==> trace == old(trace) + EntriesFrom(b, expected, i)
        invariant AddedFor(old(trace), trace, b.partition)
        invariant if next <= expected then trace == old(trace)
                  else trace != old(trace) && TakesFirst(base, s, b, env)
      {
        var offset := b.first + i;
        if offset + 1 > U64_MAX {
          if offset == expected { FirstTaken(base, s, b, env); }
          return Err(OffsetExhausted);
        }
        next := offset + 1;
        ghost var before := trace;
        if offset == expected { FirstTaken(base, s, b, env); }
        if OffsetsFit(b) { NextEntry(b, expected, i); }
        if offset >= expected {
          var applied := IncorporatePoint(b.points[i], b.partition, offset);
          if applied.Err? {
            if OffsetsFit(b) {
              assert before + [Entry(b.partition, offset, b.points[i])] == old(trace) + EntriesFrom(b, expected, i + 1);
              FailedBatch(base, old(trace), b, expected, i + 1, env);
            }
            return Err(applied.error);
          }
          AddedOne(old(trace), before, Entry(b.partition, offset, b.points[i]));
          incorporated := SaturatingIncrement(incorporated);
        }
        i := i + 1;
      }
      checkpoints := checkpoints[b.partition := Max(expected, next)];
      r := Ok(());
    }
  }

  lemma {:induction false} NoEntries(b: Batch, from: nat)
    requires b.first <= from && OffsetsFit(b)
    ensures EntriesFrom(b, from, 0) == []
  {
  }

  lemma {:induction false} EntriesPrefix(b: Batch, from: nat, n: nat)
    requires b.first <= from && n <= |b.points| && OffsetsFit(b)
    ensures EntriesFrom(b, from, n) <= EntriesFrom(b, from, |b.points|)
  {
  }

  /** A point that fails makes every replay of the whole batch fail. */
  lemma {:induction false} FailedBatch(base: Rollups, trace: seq<Entry>, b: Batch, from: nat, n: nat, env: Environment)
    requires b.first <= from && n <= |b.points| && OffsetsFit(b)
    requires Replay(base, trace + EntriesFrom(b, from, n), env).Err?
    ensures Replay(base, trace + EntriesFrom(b, from, |b.points|), env).Err?
  {
    hide Replay, EntriesFrom;
    var part, all := EntriesFrom(b, from, n), EntriesFrom(b, from, |b.points|);
    EntriesPrefix(b, from, n);
    assert trace + all == (trace + part) + all[|part|..];
    ReplayFails(base, trace + part, all[|part|..], env);
  }

  // ----- Exactly once, in order

  /** The progress of a fresh catalog after batches that were all accepted. */
  function Runs(batches: seq<Batch>): Option<Progress>
  {
    if batches == [] then Some(Progress(map[], [])) else
    var n := |batches| - 1;
    match Runs(batches[..n])
    case None => None
    case Some(s) => if Accepts(s, batches[n]) then Some(Advance(s, batches[n])) else None
  }

  type Log = (TopicPartition, nat) -> Point

  ghost predicate AreSlices(batches: seq<Batch>, log: Log)
  {
    forall b, i :: b in batches && 0 <= i < |b.points| ==> b.points[i] == log(b.partition, b.first + i)
  }

  /** Where the first batch of a partition begins. */
  function StartOf(batches: seq<Batch>, p: TopicPartition): Option<nat>
  {
    if batches == [] then None
    else if batches[0].partition == p then Some(batches[0].first)
    else StartOf(batches[1..], p)
  }

  function OfPartition(trace: seq<Entry>, p: TopicPartition): seq<Entry>
  {
    if trace == [] then []
    else
      var n := |trace| - 1;
      OfPartition(trace[..n], p) + if trace[n].partition == p then [trace[n]] else []
  }

  /** The log's own entries from `from` up to but not including `to`. */
  function LogSlice(p: TopicPartition, from: nat, to: nat, log: Log): (r: seq<Entry>)
    requires from <= to <= U64_MAX
    ensures |r| == to - from
  {
    seq(to - from, i requires 0 <= i < to - from => Entry(p, from + i, log(p, from + i)))
  }

  lemma {:induction false} OfPartitionConcat(a: seq<Entry>, b: seq<Entry>, p: TopicPartition)
    ensures OfPartition(a + b, p) == OfPartition(a, p) + OfPartition(b, p)
  {
    if b == [] {
      assert a + b == a;
    } else {
      var n := |b| - 1;
      OfPartitionConcat(a, b[..n], p);
      assert (a + b)[..|a| + n] == a + b[..n];
    }
  }

  lemma {:induction false} OnePartition(trace: seq<Entry>, p: TopicPartition, q: TopicPartition)
    requires forall e :: e in trace ==> e.partition == q
    ensures OfPartition(trace, p) == if p == q then trace else []
  {
    if trace != [] {
      OnePartition(trace[..|trace| - 1], p, q);
      assert trace == trace[..|trace| - 1] + [trace[|trace| - 1]];
    }
  }

  lemma {:induction false} StartOfAppend(batches: seq<Batch>, b: Batch, p: TopicPartition)
    ensures StartOf(batches + [b], p) ==
            if StartOf(batches, p).Some? then StartOf(batches, p) else if b.partition == p then Some(b.first) else None
  {
    if batches == [] {
      assert ([] + [b])[1..] == [];
    } else {
      StartOfAppend(batches[1..], b, p);
      assert (batches + [b])[1..] == batches[1..] + [b];
    }
  }

  /** Where the catalog stands in one partition's log. */
  ghost predicate UpToDate(s: Progress, p: TopicPartition, start: Option<nat>, log: Log)
  {
    if p in s.checkpoints then
      && start.Some? && start.value <= s.checkpoints[p]
      && OfPartition(s.trace, p) == LogSlice(p, start.value, s.checkpoints[p], log)
    else start.None? && OfPartition(s.trace, p) == []
  }

  lemma {:induction false} SliceConcat(p: TopicPartition, a: nat, b: nat, c: nat, log: Log)
    requires a <= b <= c <= U64_MAX
    ensures LogSlice(p, a, b, log) + LogSlice(p, b, c, log) == LogSlice(p, a, c, log)
  {
  }

  lemma {:induction false} EntriesAreSlice(b: Batch, from: nat, log: Log)
    requires b.first <= from <= U64_MAX && OffsetsFit(b)
    requires forall i :: 0 <= i < |b.points| ==> b.points[i] == log(b.partition, b.first + i)
    ensures EntriesFrom(b, from, |b.points|) == LogSlice(b.partition, from, Max(from, b.first + |b.points|), log)
  {
  }

  lemma {:induction false} BatchKeepsUpToDate(s: Progress, b: Batch, p: TopicPartition, start: Option<nat>, log: Log)
    requires Accepts(s, b) && UpToDate(s, p, start, log)
    requires forall i :: 0 <= i < |b.points| ==> b.points[i] == log(b.partition, b.first + i)
    ensures UpToDate(Advance(s, b), p,
      if start.Some? then start else if b.partition == p then Some(b.first) else None, log)
  {
    hide OfPartition, EntriesFrom, LogSlice;
    var expected := Expected(s.checkpoints, b);
    var added := EntriesFrom(b, expected, |b.points|);
    EntriesAreSlice(b, expected, log);
    SlicePartition(b.partition, expected, Max(expected, b.first + |b.points|), log);
    OfPartitionConcat(s.trace, added, p);
    OnePartition(added, p, b.partition);
    if p == b.partition {
      if start.Some? {
        SliceConcat(p, start.value, expected, Max(expected, b.first + |b.points|), log);
      } else {
        assert [] + added == added;
      }
    }
  }

  lemma {:induction false} SlicePartition(p: TopicPartition, a: nat, b: nat, log: Log)
    requires a <= b <= U64_MAX
    ensures forall e :: e in LogSlice(p, a, b, log) ==> e.partition == p
  {
  }

  /**
    After any accepted batches that carry slices of partition logs, overlapping
    or repeated in any way, each partition's incorporated points are the log
    from its first batch's start up to its checkpoint: every offset once, in
    order, and nothing else.
   */
  lemma {:induction false} ExactlyOnce(batches: seq<Batch>, log: Log, p: TopicPartition)
    requires Runs(batches).Some? && AreSlices(batches, log)
    ensures UpToDate(Runs(batches).value, p, StartOf(batches, p), log)
  {
    hide UpToDate, Advance;
    if batches == [] {
      assert UpToDate(Progress(map[], []), p, None, log) by { NothingYetApplied(p, log); }
    } else {
      var n := |batches| - 1;
      assert forall b :: b in batches[..n] ==> b in batches;
      ExactlyOnce(batches[..n], log, p);
      BatchKeepsUpToDate(Runs(batches[..n]).value, batches[n], p, StartOf(batches[..n], p), log);
      StartOfAppend(batches[..n], batches[n], p);
      assert batches == batches[..n] + [batches[n]];
    }
  }

  /**
    A refused batch leaves the exactly-once state intact exactly when it
    incorporated nothing; other partitions are never disturbed.
   */
  lemma {:induction false} FailedBatchExactly(
      s: Progress, s': Progress, q: TopicPartition, p: TopicPartition, start: Option<nat>, log: Log)
    requires UpToDate(s, p, start, log)
    requires s'.checkpoints == s.checkpoints && s.trace <= s'.trace
    requires AddedFor(s.trace, s'.trace, q)
    ensures UpToDate(s', p, start, log) <==> p != q || s'.trace == s.trace
  {
    hide OfPartition, LogSlice;
    var more := s'.trace[|s.trace|..];
    assert s'.trace == s.trace + more;
    OfPartitionConcat(s.trace, more, p);
    OnePartition(more, p, q);
    assert |OfPartition(s'.trace, p)| == |OfPartition(s.trace, p)| + |OfPartition(more, p)|;
    if p != q || more == [] { assert OfPartition(s.trace, p) + [] == OfPartition(s.trace, p); }
  }

  /** Two new series where the limit leaves room for one: the batch fails but keeps its first point. */
  lemma FailedBatchExample(fp: Floats) returns (b: Batch, env: Environment)
    ensures Accepts(Progress(map[], []), b) && TakesFirst(map[], Progress(map[], []), b, env)
    ensures Replay(map[], Advance(Progress(map[], []), b).trace, env) == Err(SeriesLimit)
  {
    hide Replay, ApplyPoint;
    var p := TopicPartition(1, 0);
    var one := Point(MetricIdentity("t", "a", "", GaugeKind, []), "", 1, GaugeValue(Integer(1)));
    var two := Point(MetricIdentity("t", "b", "", GaugeKind, []), "", 2, GaugeValue(Integer(2)));
    env := Environment(1, fp, (id: MetricIdentity) => if id.name == "a" then 0 else 1);
    b := Batch(p, 5, [one, two]);
    var first, second := Entry(p, 5, one), Entry(p, 6, two);
    NextEntry(b, 5, 0); NextEntry(b, 5, 1); NoEntries(b, 5);
    assert EntriesFrom(b, 5, 2) == [first, second];
    assert [] + [first] == [first] && [] + [first, second] == [first, second];
    OneSeriesFits(first, second, env);
  }

  /** With room for one series the first point of a trace applies and one of another series does not. */
  lemma {:induction false} OneSeriesFits(first: Entry, second: Entry, env: Environment)
    requires env.maxSeries == 1
    requires env.fingerprint(first.point.identity) != env.fingerprint(second.point.identity)
    ensures Replay(map[], [first], env).Ok? && Replay(map[], [first, second], env) == Err(SeriesLimit)
  {
    hide ApplyPoint;
    assert [] + [first] == [first] && [first] + [second] == [first, second];
    ReplayNext(map[], [], first, env);
    ReplayNext(map[], [first], second, env);
    FirstSeries(first.point, env);
    NoRoom(map[env.fingerprint(first.point.identity) := FirstState(first.point)], second.point, env);
  }

  lemma {:induction false} FirstSeries(point: Point, env: Environment)
    requires env.maxSeries >= 1
    ensures ApplyPoint(map[], point, env) == Ok(map[env.fingerprint(point.identity) := FirstState(point)])
  {
  }

  lemma {:induction false} NoRoom(rollups: Rollups, point: Point, env: Environment)
    requires env.fingerprint(point.identity) !in rollups && |rollups| >= env.maxSeries
    ensures ApplyPoint(rollups, point, env) == Err(SeriesLimit)
  {
  }

  lemma {:induction false} NothingYetApplied(p: TopicPartition, log: Log)
    ensures UpToDate(Progress(map[], []), p, None, log)
  {
  }

  // ----- What the rollups hold

  function SeriesPoints(trace: seq<Entry>, series: Fingerprint, env: Environment): seq<Point>
  {
    if trace == [] then []
    else
      var n := |trace| - 1;
      SeriesPoints(trace[..n], series, env) +
        if env.fingerprint(trace[n].point.identity) == series then [trace[n].point] else []
  }

  /** One series by itself. */
  ghost function RunSeries(points: seq<Point>, fp: Floats): Result<RollupState, RollupError>
    requires points != []
  {
    var n := |points| - 1;
    if n == 0 then Ok(FirstState(points[0])) else
    match RunSeries(points[..n], fp)
    case Err(e) => Err(e)
    case Ok(state) => UpdateState(state, points[n], fp)
  }

  /** Series do not disturb one another: each rollup is its own points' run. */
  lemma {:induction false} SeriesAreIndependent(trace: seq<Entry>, env: Environment, series: Fingerprint)
    requires Replay(map[], trace, env).Ok?
    ensures var rollups, points := Replay(map[], trace, env).value, SeriesPoints(trace, series, env);
            && (series in rollups <==> points != [])
            && (points != [] ==> RunSeries(points, env.fp) == Ok(rollups[series]))
  {
    hide UpdateState;
    if trace != [] {
      var n := |trace| - 1;
      SeriesAreIndependent(trace[..n], env, series);
      var front := SeriesPoints(trace[..n], series, env);
      if env.fingerprint(trace[n].point.identity) == series {
        assert (front + [trace[n].point])[..|front|] == front;
      } else {
        assert front + [] == front;
      }
    }
  }

  /** The stored span of a series: its earliest and latest timestamps, its size and its newest description. */
  lemma {:induction false} SeriesSpan(points: seq<Point>, fp: Floats)
    requires points != [] && RunSeries(points, fp).Ok?
    ensures var state := RunSeries(points, fp).value;
            && state.observed == Min(|points|, U64_MAX) && state.description == points[|points| - 1].description
            && (forall p :: p in points ==> state.first <= p.timestamp <= state.last)
            && (exists p :: p in points && p.timestamp == state.first)
            && (exists p :: p in points && p.timestamp == state.last)
  {
    hide Accumulate;
    var n := |points| - 1;
    assert points == points[..n] + [points[n]];
    assert points[n] in points;
    if n > 0 { SeriesSpan(points[..n], fp); }
  }

  ghost predicate IntegerGauges(points: seq<Point>)
  {
    forall p :: p in points ==> p.value.GaugeValue? && p.value.number.Integer?
  }

  /** A gauge of integers keeps its last value, its least and its greatest, and never resets. */
  lemma {:induction false} GaugeSeries(points: seq<Point>, fp: Floats)
    requires points != [] && points[0].identity.kind == GaugeKind && IntegerGauges(points)
    requires RunSeries(points, fp).Ok?
    ensures var state := RunSeries(points, fp).value;
            && state.outcome == points[|points| - 1].value && state.resets == 0
            && state.min.Some? && state.min.value.Integer? && state.max.Some? && state.max.value.Integer?
            && (forall p :: p in points ==> state.min.value.n <= p.value.number.n <= state.max.value.n)
            && (exists p :: p in points && p.value.number == state.min.value)
            && (exists p :: p in points && p.value.number == state.max.value)
  {
    var n := |points| - 1;
    assert points == points[..n] + [points[n]];
    assert points[n] in points;
    if n > 0 {
      GaugeSeries(points[..n], fp);
      SameIdentity(points, fp);
    }
  }

  lemma {:induction false} SameIdentity(points: seq<Point>, fp: Floats)
    requires points != [] && RunSeries(points, fp).Ok?
    ensures RunSeries(points, fp).value.identity == points[0].identity
    ensures points[|points| - 1].identity == points[0].identity
  {
    hide Accumulate;
    if |points| > 1 { SameIdentity(points[..|points| - 1], fp); }
  }

  function Numbers(points: seq<Point>): (r: seq<NumberValue>)
    requires forall i :: 0 <= i < |points| ==> points[i].value.SumValue?
    ensures |r| == |points|
  {
    seq(|points|, i requires 0 <= i < |points| => points[i].value.number)
  }

  function Histograms(points: seq<Point>): (r: seq<ExponentialHistogram>)
    requires forall i :: 0 <= i < |points| ==> points[i].value.ExponentialValue?
    ensures |r| == |points|
  {
    seq(|points|, i requires 0 <= i < |points| => points[i].value.histogram)
  }

  lemma {:induction false} SumStep(state: RollupState, point: Point, temporality: i32, monotonic: bool, fp: Floats)
    requires UpdateState(state, point, fp).Ok?
    requires state.identity.kind == SumKind(temporality, monotonic) && state.outcome.SumValue? &&
      state.lastRaw.SumValue?
    ensures point.value.SumValue? && point.identity == state.identity
    ensures var next, r := UpdateState(state, point, fp).value,
                           AccumulateSum(temporality, monotonic, state.outcome.number, state.lastRaw.number,
                             point.value.number, fp);
            && next.identity == state.identity && next.lastRaw == point.value
            && r.Ok? && next.outcome == SumValue(r.value.0)
            && next.resets == Min(state.resets + if r.value.1 then 1 else 0, U64_MAX)
  {
    hide AccumulateSum;
  }

  lemma {:induction false} HistogramValueStep(state: RollupState, point: Point, temporality: i32, fp: Floats)
    requires UpdateState(state, point, fp).Ok?
    requires state.identity.kind == ExponentialKind(temporality)
    requires state.outcome.ExponentialValue? && state.lastRaw.ExponentialValue?
    ensures point.value.ExponentialValue? && point.identity == state.identity
    ensures var next, r := UpdateState(state, point, fp).value,
                           AccumulateExponential(temporality, state.outcome.histogram, state.lastRaw.histogram,
                             point.value.histogram, fp);
            && next.identity == state.identity && next.lastRaw == point.value
            && r.Ok? && next.outcome == ExponentialValue(r.value.0)
            && next.resets == Min(state.resets + if r.value.1 then 1 else 0, U64_MAX)
  {
    hide AccumulateExponential;
  }

  lemma {:induction false} FirstSum(temporality: i32, monotonic: bool, values: seq<NumberValue>, fp: Floats)
    requires |values| == 1
    ensures RunSum(temporality, monotonic, values, fp) == Ok((values[0], 0))
  {
  }

  lemma {:induction false} RunSumStep(temporality: i32, monotonic: bool, values: seq<NumberValue>, fp: Floats)
    requires |values| > 1 && RunSum(temporality, monotonic, values[..|values| - 1], fp).Ok?
    ensures var n := |values| - 1;
            var run := RunSum(temporality, monotonic, values[..n], fp).value;
            var step := AccumulateSum(temporality, monotonic, run.0, values[n - 1], values[n], fp);
            step.Ok? ==>
              RunSum(temporality, monotonic, values, fp) == Ok((step.value.0, run.1 + if step.value.1 then 1 else 0))
  {
    hide AccumulateSum;
  }

  lemma {:induction false} SumSeries(points: seq<Point>, temporality: i32, monotonic: bool, fp: Floats)
    requires points != [] && RunSeries(points, fp).Ok?
    requires points[0].identity.kind == SumKind(temporality, monotonic) && points[0].value.SumValue?
    ensures forall i :: 0 <= i < |points| ==> points[i].value.SumValue? && points[i].identity == points[0].identity
    ensures var state := RunSeries(points, fp).value;
            && state.identity == points[0].identity && state.lastRaw == points[|points| - 1].value
            && RunSum(temporality, monotonic, Numbers(points), fp).Ok?
            && var (total, resets) := RunSum(temporality, monotonic, Numbers(points), fp).value;
               state.outcome == SumValue(total) && state.resets == Min(resets, U64_MAX)
  {
    hide AccumulateSum, UpdateState, RunSum;
    var n := |points| - 1;
    if n == 0 { FirstSum(temporality, monotonic, Numbers(points), fp); }
    if n > 0 {
      assert forall i :: 0 <= i < n ==> points[..n][i] == points[i];
      SumSeries(points[..n], temporality, monotonic, fp);
      SumStep(RunSeries(points[..n], fp).value, points[n], temporality, monotonic, fp);
      var values := Numbers(points);
      assert values[..n] == Numbers(points[..n]);
      RunSumStep(temporality, monotonic, values, fp);
    }
  }

  lemma {:induction false} FirstHistogram(temporality: i32, hs: seq<ExponentialHistogram>, fp: Floats)
    requires |hs| == 1
    ensures RunHistogram(temporality, hs, fp) == Ok((hs[0], 0))
  {
  }

  lemma {:induction false} RunHistogramStep(temporality: i32, hs: seq<ExponentialHistogram>, fp: Floats)
    requires |hs| > 1 && RunHistogram(temporality, hs[..|hs| - 1], fp).Ok?
    ensures var n := |hs| - 1;
            var run := RunHistogram(temporality, hs[..n], fp).value;
            var step := AccumulateExponential(temporality, run.0, hs[n - 1], hs[n], fp);
            step.Ok? ==> RunHistogram(temporality, hs, fp) == Ok((step.value.0, run.1 + if step.value.1 then 1 else 0))
  {
    hide AccumulateExponential;
  }

  lemma {:induction false} HistogramSeries(points: seq<Point>, temporality: i32, fp: Floats)
    requires points != [] && RunSeries(points, fp).Ok?
    requires points[0].identity.kind == ExponentialKind(temporality) && points[0].value.ExponentialValue?
    ensures forall i :: 0 <= i < |points| ==>
      points[i].value.ExponentialValue? && points[i].identity == points[0].identity
    ensures var state := RunSeries(points, fp).value;
            && state.identity == points[0].identity && state.lastRaw == points[|points| - 1].value
            && RunHistogram(temporality, Histograms(points), fp).Ok?
            && var (total, resets) := RunHistogram(temporality, Histograms(points), fp).value;
               state.outcome == ExponentialValue(total) && state.resets == Min(resets, U64_MAX)
  {
    hide AccumulateExponential, UpdateState, RunHistogram;
    var n := |points| - 1;
    if n == 0 { FirstHistogram(temporality, Histograms(points), fp); }
    if n > 0 {
      assert forall i :: 0 <= i < n ==> points[..n][i] == points[i];
      HistogramSeries(points[..n], temporality, fp);
      HistogramValueStep(RunSeries(points[..n], fp).value, points[n], temporality, fp);
      var hs := Histograms(points);
      assert hs[..n] == Histograms(points[..n]);
      RunHistogramStep(temporality, hs, fp);
    }
  }

  // ----- End to end

  predicate IsCounter(points: seq<Point>)
  {
    && points != [] && points[0].identity.kind.SumKind? && points[0].identity.kind.monotonic
    && points[0].identity.kind.temporality != DELTA_TEMPORALITY
    && points[0].value.SumValue? && points[0].value.number.Integer?
  }

  /**
    What the rollup of a cumulative integer counter holds: the last raw value
    plus the values before each decrease, exactly when that fits in i64.
   */
  ghost predicate HoldsCounter(state: RollupState, points: seq<Point>)
  {
    && points != [] && (forall i :: 0 <= i < |points| ==> points[i].value.SumValue?)
    && IntegerPoints(Numbers(points))
    && state.resets == Min(Decreases(Numbers(points)), U64_MAX)
    && state.outcome.SumValue? && state.outcome.number.Integer?
    && (state.outcome.number.n == LifetimeSum(Numbers(points)) <==>
        I64_MIN <= LifetimeSum(Numbers(points)) <= I64_MAX)
  }

  lemma {:induction false} CounterOutcome(trace: seq<Entry>, env: Environment, series: Fingerprint)
    requires Replay(map[], trace, env).Ok? && IsCounter(SeriesPoints(trace, series, env))
    ensures var rollups := Replay(map[], trace, env).value;
            series in rollups && HoldsCounter(rollups[series], SeriesPoints(trace, series, env))
  {
    hide Replay, SeriesPoints, RunSeries, RunSum, Decreases, LifetimeSum;
    var points := SeriesPoints(trace, series, env);
    SeriesAreIndependent(trace, env, series);
    SumSeries(points, points[0].identity.kind.temporality, true, env.fp);
    CumulativeSumRun(points[0].identity.kind.temporality, Numbers(points), env.fp);
  }

  ghost predicate IsHistogram(points: seq<Point>)
  {
    && points != [] && points[0].identity.kind.ExponentialKind?
    && forall i :: 0 <= i < |points| ==>
         points[i].value.ExponentialValue? && IntegerHistogram(points[i].value.histogram)
  }

  /**
    What the rollup of an integer exponential histogram holds: in every
    component the lifetime value, every bucket of the last raw point, and the
    zero, positive and negative counts adding up if they do in each point.
   */
  ghost predicate HoldsHistogram(state: RollupState, points: seq<Point>)
    requires IsHistogram(points)
  {
    var temporality, hs := points[0].identity.kind.temporality, Histograms(points);
    && state.outcome.ExponentialValue? && IntegerHistogram(state.outcome.histogram)
    && CoversBuckets(state.outcome.histogram, hs[|hs| - 1])
    && (forall c: Component :: Part(state.outcome.histogram, c) == Lifetime(temporality, hs, c))
    && state.resets == (if temporality == DELTA_TEMPORALITY then 0 else Min(Restarts(hs), U64_MAX))
    && ((forall i :: 0 <= i < |hs| ==> Balanced(hs[i])) ==> Balanced(state.outcome.histogram))
  }

  lemma {:induction false} HistogramOutcome(trace: seq<Entry>, env: Environment, series: Fingerprint)
    requires Replay(map[], trace, env).Ok? && IsHistogram(SeriesPoints(trace, series, env))
    ensures var rollups := Replay(map[], trace, env).value;
            series in rollups && HoldsHistogram(rollups[series], SeriesPoints(trace, series, env))
  {
    hide Replay, SeriesPoints, RunSeries, RunHistogram, IntegerHistogram, Balanced, Part, Lifetime, Restarts,
      CoversBuckets;
    var points := SeriesPoints(trace, series, env);
    SeriesAreIndependent(trace, env, series);
    HistogramSeries(points, points[0].identity.kind.temporality, env.fp);
    HistogramRun(points[0].identity.kind.temporality, Histograms(points), env.fp);
  }

  /** A series is stored exactly when it has points, and then holds what its kind promises. */
  ghost predicate HoldsSeries(rollups: Rollups, trace: seq<Entry>, env: Environment, series: Fingerprint)
  {
    var points := SeriesPoints(trace, series, env);
    && (series in rollups <==> points != [])
    && (IsCounter(points) ==> HoldsCounter(rollups[series], points))
    && (IsHistogram(points) ==> HoldsHistogram(rollups[series], points))
  }

  lemma {:induction false} SeriesHold(trace: seq<Entry>, env: Environment, series: Fingerprint)
    requires Replay(map[], trace, env).Ok?
    ensures HoldsSeries(Replay(map[], trace, env).value, trace, env, series)
  {
    hide Replay, SeriesPoints, HoldsCounter, HoldsHistogram, RunSeries;
    SeriesAreIndependent(trace, env, series);
    if IsCounter(SeriesPoints(trace, series, env)) { CounterOutcome(trace, env, series); }
    if IsHistogram(SeriesPoints(trace, series, env)) { HistogramOutcome(trace, env, series); }
  }

  /**
    Feeds batches to a catalog that has so far taken `earlier`. While all are
    accepted, every partition's log is incorporated exactly once up to its
    checkpoint, and every series holds its lifetime values.
   */
  method ApplyBatches(catalog: MetricRollupCatalog, batches: seq<Batch>, ghost earlier: seq<Batch>, ghost log: Log)
    returns (r: Result<(), RollupError>)
    requires catalog.Valid() && catalog.base == map[]
    requires Runs(earlier) == Some(catalog.Progressed()) && AreSlices(earlier + batches, log)
    modifies catalog
    ensures catalog.Valid()
    ensures r.Ok? ==> Runs(earlier + batches) == Some(catalog.Progressed())
    ensures r.Ok? ==> forall p :: UpToDate(catalog.Progressed(), p, StartOf(earlier + batches, p), log)
    ensures r.Ok? ==> forall series :: HoldsSeries(catalog.rollups, catalog.trace, catalog.env, series)
  {
    hide Replay, UpToDate, HoldsSeries, Advance, Accepts, AreSlices, TakesFirst, AddedFor;
    assert earlier + batches[..0] == earlier;
    for i := 0 to |batches|
      invariant catalog.Valid() && Runs(earlier + batches[..i]) == Some(catalog.Progressed())
    {
      RunsStep(earlier + batches[..i], batches[i]);
      assert (earlier + batches[..i]) + [batches[i]] == earlier + batches[..i + 1];
      r := catalog.ApplyBatch(batches[i]);
      if r.Err? { return; }
    }
    assert batches[..|batches|] == batches;
    forall p ensures UpToDate(catalog.Progressed(), p, StartOf(earlier + batches, p), log) {
      ExactlyOnce(earlier + batches, log, p);
    }
    forall series ensures HoldsSeries(catalog.rollups, catalog.trace, catalog.env, series) {
      SeriesHold(catalog.trace, catalog.env, series);
    }
    r := Ok(());
  }

  /**
    Applies one batch to a catalog that is up to date in partition `p`. An
    accepted slice of the log leaves it up to date. After a refusal it is still
    so exactly when `p` is another partition or the first point past the
    checkpoint could not be incorporated.
   */
  method ApplyToUpToDate(
      catalog: MetricRollupCatalog, b: Batch, ghost p: TopicPartition, ghost start: Option<nat>, ghost log: Log)
    returns (r: Result<(), RollupError>)
    requires catalog.Valid() && UpToDate(catalog.Progressed(), p, start, log) && AreSlices([b], log)
    modifies catalog
    ensures catalog.Valid()
    ensures r.Ok? ==>
      UpToDate(catalog.Progressed(), p,
        if start.Some? then start else if b.partition == p then Some(b.first) else None, log)
    ensures r.Err? ==>
      (UpToDate(catalog.Progressed(), p, start, log) <==>
       p != b.partition || !TakesFirst(catalog.base, old(catalog.Progressed()), b, catalog.env))
  {
    hide Replay, UpToDate, TakesFirst, AddedFor, Accepts, Advance;
    assert b in [b];
    r := catalog.ApplyBatch(b);
    if r.Ok? {
      BatchKeepsUpToDate(old(catalog.Progressed()), b, p, start, log);
    } else {
      FailedBatchExactly(old(catalog.Progressed()), catalog.Progressed(), b.partition, p, start, log);
    }
  }

  lemma {:induction false} RunsStep(batches: seq<Batch>, b: Batch)
    ensures Runs(batches + [b]) ==
            match Runs(batches)
            case None => None
            case Some(s) => if Accepts(s, b) then Some(Advance(s, b)) else None
  {
    hide Accepts, Advance;
    assert (batches + [b])[..|batches|] == batches;
  }
}
