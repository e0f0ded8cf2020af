/**
  Bounded sampling of sealed blocks for dictionary training: evenly spread
  windows, per-section budgets and size lists that always add up.
 */
module Sampling {
  import opened Base

  const TRAINING_SAMPLE_CHUNK_BYTES: nat := 16 * 1024
  const BLOCK_WINDOWS: nat := 8
  const TRAINING_WINDOWS: nat := 4

  // ----- Totals

  function Sum(s: seq<nat>): nat
  {
    if s == [] then 0 else s[0] + Sum(s[1..])
  }

  lemma {:induction false} SumNothing()
    ensures Sum([]) == 0
  {
  }

  lemma {:induction false} SumConcat(a: seq<nat>, b: seq<nat>)
    ensures Sum(a + b) == Sum(a) + Sum(b)
  {
    if a == [] {
      assert a + b == b;
    } else {
      SumConcat(a[1..], b);
      assert (a + b)[1..] == a[1..] + b;
    }
  }

  lemma {:induction false} SumAppend(s: seq<nat>, x: nat)
    ensures Sum(s + [x]) == Sum(s) + x
  {
    SumConcat(s, [x]);
  }

  /** A sample and the sizes of the pieces it is made of. */
  datatype TrainingSample = TrainingSample(data: Bytes, sizes: seq<nat>)

  /** The pieces are non-empty and make up exactly the data. */
  predicate Consistent(s: TrainingSample)
  {
    Sum(s.sizes) == |s.data| && forall n :: n in s.sizes ==> n > 0
  }

  function Joined(a: TrainingSample, b: TrainingSample): (r: TrainingSample)
    ensures Consistent(a) && Consistent(b) ==> Consistent(r)
  {
    SumConcat(a.sizes, b.sizes);
    TrainingSample(a.data + b.data, a.sizes + b.sizes)
  }

  // ----- Windows

  function SaturatingMul(a: nat, b: nat): nat { Min(a * b, U64_MAX) }

  lemma {:induction false} MulMonotone(i: nat, k: nat, n: nat)
    requires i <= k
    ensures i * n <= k * n
    decreases k
  {
    if i < k {
      MulMonotone(i, k - 1, n);
      assert k * n == (k - 1) * n + n;
    }
  }

  lemma {:induction false} MulMonotoneIf(i: nat, k: nat, n: nat)
    ensures i <= k ==> i * n <= k * n
  {
    if i <= k { MulMonotone(i, k, n); }
  }

  lemma {:induction false} QuotientBound(x: nat, k: nat, n: nat)
    requires k > 0 && x < k * n + k
    ensures x / k <= n
  {
    MulMonotoneIf(n + 1, x / k, k);
    Split(x, k);
  }

  lemma {:induction false} QuotientFloor(x: nat, k: nat, n: nat)
    requires k > 0 && x >= k * n
    ensures x / k >= n
  {
    MulMonotoneIf(x / k + 1, n, k);
    Split(x, k);
  }

  lemma {:induction false} Split(x: nat, k: nat)
    requires k > 0
    ensures x == k * (x / k) + x % k && x % k < k
  {
  }

  /** Where window `i` of windows `0..last` begins, leaving `room` bytes to spread over. */
  function WindowStart(i: nat, last: nat, room: nat): (start: nat)
    requires last > 0
    ensures i <= last ==> start <= room
  {
    if i <= last then
      MulMonotone(i, last, room);
      QuotientBound(SaturatingMul(i, room), last, room);
      SaturatingMul(i, room) / last
    else SaturatingMul(i, room) / last
  }

  /** Later windows never begin earlier. */
  lemma {:induction false} WindowStartsAscend(i: nat, j: nat, last: nat, room: nat)
    requires last > 0 && i <= j
    ensures WindowStart(i, last, room) <= WindowStart(j, last, room)
  {
    MulMonotone(i, j, room);
    var a, b := SaturatingMul(i, room), SaturatingMul(j, room);
    Split(a, last);
    QuotientFloor(b, last, a / last);
  }

  /** The first window begins at the start, and the last one ends at the end unless the product saturates. */
  lemma {:induction false} WindowsReachBothEnds(last: nat, room: nat)
    requires last > 0
    ensures WindowStart(0, last, room) == 0
    ensures WindowStart(last, last, room) == room <==> last * room <= U64_MAX || U64_MAX / last == room
  {
    QuotientBound(last * room, last, room);
    QuotientFloor(last * room, last, room);
  }

  function BlockWindows(source: Bytes, width: nat, count: nat): (r: Bytes)
    requires width <= |source| && count <= BLOCK_WINDOWS
    ensures |r| == count * width
  {
    if count == 0 then [] else
    OneMore(count, width);
    var start := WindowStart(count - 1, BLOCK_WINDOWS - 1, |source| - width);
    BlockWindows(source, width, count - 1) + source[start..start + width]
  }

  /** Eight windows across the block and the last `rest` bytes of it. */
  function CutSample(source: Bytes, width: nat, rest: nat): (r: Bytes)
    requires width <= |source| && rest <= |source|
    ensures |r| == 8 * width + rest
  {
    BlockWindows(source, width, BLOCK_WINDOWS) + source[|source| - rest..]
  }

  /** At most `limit` bytes: everything, or a cut sample. */
  method SampleBytes(source: Bytes, limit: nat) returns (sampled: Bytes)
    ensures |sampled| == Min(limit, |source|)
    ensures |source| <= limit ==> sampled == source
    ensures |source| > limit ==> sampled == CutSample(source, limit / BLOCK_WINDOWS, limit % BLOCK_WINDOWS)
  {
    hide WindowStart;
    if |source| <= limit { return source; }
    var width := limit / BLOCK_WINDOWS;
    sampled := SampleWindows(source, width);
    var remainder := limit - |sampled|;
    if remainder > 0 {
      sampled := sampled + source[|source| - remainder..];
    } else {
      assert sampled + source[|source|..] == sampled;
    }
  }

  method SampleWindows(source: Bytes, width: nat) returns (sampled: Bytes)
    requires width <= |source|
    ensures sampled == BlockWindows(source, width, BLOCK_WINDOWS)
  {
    hide WindowStart;
    sampled := [];
    for index := 0 to BLOCK_WINDOWS
      invariant sampled == BlockWindows(source, width, index)
    {
      var start := WindowStart(index, BLOCK_WINDOWS - 1, |source| - width);
      sampled := sampled + source[start..start + width];
    }
  }

  lemma {:induction false} LastBlockWindow(source: Bytes, width: nat, count: nat)
    requires width <= |source| && 0 < count <= BLOCK_WINDOWS
    ensures var start := WindowStart(count - 1, BLOCK_WINDOWS - 1, |source| - width);
            BlockWindows(source, width, count) == BlockWindows(source, width, count - 1) + source[start..start + width]
  {
  }

  /** Every window holds the source bytes at its own start. */
  lemma {:induction false} BlockWindowAt(source: Bytes, width: nat, count: nat, i: nat)
    requires width <= |source| && i < count <= BLOCK_WINDOWS
    ensures i * width + width <= count * width
    ensures var start := WindowStart(i, BLOCK_WINDOWS - 1, |source| - width);
            BlockWindows(source, width, count)[i * width..i * width + width] == source[start..start + width]
  {
    hide BlockWindows, WindowStart;
    MulMonotone(i + 1, count, width);
    OneMore(i + 1, width);
    LastBlockWindow(source, width, count);
    if i < count - 1 {
      BlockWindowAt(source, width, count - 1, i);
      var windows, front, lo := BlockWindows(source, width, count), BlockWindows(source, width, count - 1), i * width;
      SliceOfPrefix(windows, front, lo, lo + width);
    }
  }

  lemma {:induction false} SliceOfPrefix(s: Bytes, front: Bytes, lo: nat, hi: nat)
    requires lo <= hi <= |front| && front <= s
    ensures s[lo..hi] == front[lo..hi]
  {
  }

  /**
    What a cut sample shows of its block: each of the eight windows, at `lo` in
    the sample, is the block's bytes at its own start; behind them come the
    block's last bytes.
   */
  lemma {:induction false} SampleCoversBlock(source: Bytes, width: nat, rest: nat, i: nat, lo: nat)
    requires width <= |source| && rest <= |source| && i < BLOCK_WINDOWS && lo == i * width
    ensures lo + width <= 8 * width
    ensures var start := WindowStart(i, BLOCK_WINDOWS - 1, |source| - width);
            CutSample(source, width, rest)[lo..lo + width] == source[start..start + width]
    ensures CutSample(source, width, rest)[8 * width..] == source[|source| - rest..]
  {
    hide BlockWindows, WindowStart;
    var windows := BlockWindows(source, width, BLOCK_WINDOWS);
    BlockWindowAt(source, width, BLOCK_WINDOWS, i);
    SliceOfPrefix(windows + source[|source| - rest..], windows, lo, lo + width);
  }

  /** A cut sample opens with the block's opening; its eighth window is the block's end unless its start saturates. */
  lemma {:induction false} SampleReachesBothEnds(source: Bytes, width: nat, rest: nat)
    requires width <= |source| && rest <= |source|
    ensures CutSample(source, width, rest)[..width] == source[..width]
    ensures 7 * (|source| - width) <= U64_MAX || U64_MAX / 7 == |source| - width ==>
              CutSample(source, width, rest)[7 * width..8 * width] == source[|source| - width..]
  {
    hide CutSample, WindowStart;
    SampleCoversBlock(source, width, rest, 0, 0);
    SampleCoversBlock(source, width, rest, BLOCK_WINDOWS - 1, 7 * width);
    WindowsReachBothEnds(BLOCK_WINDOWS - 1, |source| - width);
  }

  // ----- Chunks

  /** A sample cut into equal chunks with a shorter last one. */
  method ChunkTrainingSample(data: Bytes) returns (r: TrainingSample)
    ensures r.data == data && Consistent(r)
    ensures forall n :: n in r.sizes ==> n <= TRAINING_SAMPLE_CHUNK_BYTES
    ensures forall i :: 0 <= i < |r.sizes| - 1 ==> r.sizes[i] == TRAINING_SAMPLE_CHUNK_BYTES
  {
    hide Sum;
    var sizes: seq<nat> := [];
    SumNothing();
    var full := |data| / TRAINING_SAMPLE_CHUNK_BYTES;
    for i := 0 to full
      invariant |sizes| == i && Sum(sizes) == i * TRAINING_SAMPLE_CHUNK_BYTES
      invariant forall k :: 0 <= k < i ==> sizes[k] == TRAINING_SAMPLE_CHUNK_BYTES
    {
      SumAppend(sizes, TRAINING_SAMPLE_CHUNK_BYTES);
      sizes := sizes + [TRAINING_SAMPLE_CHUNK_BYTES];
    }
    var remainder := |data| % TRAINING_SAMPLE_CHUNK_BYTES;
    if remainder > 0 {
      SumAppend(sizes, remainder);
      sizes := sizes + [remainder];
    }
    return TrainingSample(data, sizes);
  }

  // ----- Windows of one section

  function WindowLength(i: nat, count: nat, budget: nat): nat
    requires count > 0
  {
    budget / count + if i < budget % count then 1 else 0
  }

  function TrainingStart(i: nat, count: nat, room: nat): (start: nat)
    requires i < count
    ensures start <= room
  {
    if count == 1 then 0 else WindowStart(i, count - 1, room)
  }

  lemma {:induction false} WindowsFillBudget(count: nat, budget: nat)
    requires 0 < count <= budget
    ensures budget / count >= 1 && count * (budget / count) + Min(count, budget % count) == budget
  {
    QuotientFloor(budget, count, 1);
  }

  lemma {:induction false} WindowFits(i: nat, count: nat, budget: nat)
    requires 0 < count <= budget && i < count
    ensures 1 <= WindowLength(i, count, budget) <= budget
  {
    WindowsFillBudget(count, budget);
    MulMonotone(1, count, budget / count);
  }

  function Piece(data: Bytes): TrainingSample { TrainingSample(data, [|data|]) }

  lemma {:induction false} PieceAddsUp(data: Bytes)
    requires data != []
    ensures Consistent(Piece(data))
  {
  }

  /** The first `k` of `count` windows spread across a section. */
  function SpreadWindows(source: Bytes, budget: nat, count: nat, k: nat): (r: TrainingSample)
    requires 0 < count <= budget < |source| && k <= count
    ensures Consistent(r) && |r.sizes| == k
    ensures |r.data| == k * (budget / count) + Min(k, budget % count)
  {
    if k == 0 then TrainingSample([], []) else
    hide Sum, TrainingStart, Consistent;
    OneMore(k, budget / count);
    WindowFits(k - 1, count, budget);
    var length := WindowLength(k - 1, count, budget);
    var start := TrainingStart(k - 1, count, |source| - length);
    PieceAddsUp(source[start..start + length]);
    Joined(SpreadWindows(source, budget, count, k - 1), Piece(source[start..start + length]))
  }

  /** What one section contributes: all of it when it fits, otherwise up to four spread windows. */
  function SectionSample(source: Bytes, budget: nat): (r: TrainingSample)
    ensures Consistent(r) && |r.data| == Min(budget, |source|) && |r.sizes| <= TRAINING_WINDOWS
  {
    if budget == 0 || source == [] then TrainingSample([], [])
    else if |source| <= budget then Piece(source)
    else
      var count := Min(TRAINING_WINDOWS, budget);
      WindowsFillBudget(count, budget);
      SpreadWindows(source, budget, count, count)
  }

  lemma {:induction false} SpreadStep(source: Bytes, budget: nat, count: nat, k: nat)
    requires 0 < count <= budget < |source| && k < count
    ensures 1 <= WindowLength(k, count, budget) <= budget
    ensures var length := WindowLength(k, count, budget);
            var start := TrainingStart(k, count, |source| - length);
            SpreadWindows(source, budget, count, k + 1) ==
            Joined(SpreadWindows(source, budget, count, k), Piece(source[start..start + length]))
  {
    hide Consistent, Joined, TrainingStart;
    WindowFits(k, count, budget);
  }

  method AppendTrainingWindows(source: Bytes, budget: nat, sample: TrainingSample) returns (r: TrainingSample)
    ensures r == Joined(sample, SectionSample(source, budget))
  {
    if budget == 0 || source == [] {
      return sample;
    }
    if |source| <= budget {
      return TrainingSample(sample.data + source, sample.sizes + [|source|]);
    }
    r := AppendSpread(source, budget, sample);
  }

  method AppendSpread(source: Bytes, budget: nat, sample: TrainingSample) returns (r: TrainingSample)
    requires 0 < budget < |source|
    ensures r == Joined(sample, SectionSample(source, budget))
  {
    hide Consistent, SpreadWindows, TrainingStart, Sum;
    var count := Min(TRAINING_WINDOWS, budget);
    r := sample;
    SpreadNothing(source, budget, count);
    for index := 0 to count
      invariant r == Joined(sample, SpreadWindows(source, budget, count, index))
    {
      var length := WindowLength(index, count, budget);
      SpreadStep(source, budget, count, index);
      var start := TrainingStart(index, count, |source| - length);
      JoinedTwice(sample, SpreadWindows(source, budget, count, index), Piece(source[start..start + length]));
      r := TrainingSample(r.data + source[start..start + length], r.sizes + [length]);
    }
  }

  lemma {:induction false} SpreadNothing(source: Bytes, budget: nat, count: nat)
    requires 0 < count <= budget < |source|
    ensures SpreadWindows(source, budget, count, 0) == TrainingSample([], [])
  {
  }

  lemma {:induction false} JoinedTwice(a: TrainingSample, b: TrainingSample, c: TrainingSample)
    ensures Joined(Joined(a, b), c) == Joined(a, Joined(b, c))
  {
  }

  // ----- Budgets

  predicate Within(budgets: seq<nat>, lengths: seq<nat>)
  {
    |budgets| == |lengths| && forall i :: 0 <= i < |lengths| ==> budgets[i] <= lengths[i]
  }

  function OpenCount(lengths: seq<nat>, budgets: seq<nat>): nat
    requires Within(budgets, lengths)
  {
    if lengths == [] then 0 else (if budgets[0] < lengths[0] then 1 else 0) + OpenCount(lengths[1..], budgets[1..])
  }

  /** One pass: each section in turn takes what it still needs, up to its share and what is left. */
  function Share(lengths: seq<nat>, budgets: seq<nat>, share: nat, remaining: nat): (r: (seq<nat>, nat))
    requires Within(budgets, lengths)
    ensures Within(r.0, lengths) && r.1 <= remaining
  {
    if lengths == [] then ([], remaining) else
    var take := Min(Min(lengths[0] - budgets[0], share), remaining);
    var tail := Share(lengths[1..], budgets[1..], share, remaining - take);
    ([budgets[0] + take] + tail.0, tail.1)
  }

  lemma {:induction false} ShareConserves(lengths: seq<nat>, budgets: seq<nat>, share: nat, remaining: nat)
    requires Within(budgets, lengths)
    ensures var r := Share(lengths, budgets, share, remaining);
            Sum(r.0) + r.1 == Sum(budgets) + remaining
  {
    if lengths != [] {
      var take := Min(Min(lengths[0] - budgets[0], share), remaining);
      var tail := Share(lengths[1..], budgets[1..], share, remaining - take);
      assert Share(lengths, budgets, share, remaining) == ([budgets[0] + take] + tail.0, tail.1);
      hide Share;
      ShareConserves(lengths[1..], budgets[1..], share, remaining - take);
      SumConcat([budgets[0] + take], tail.0);
    }
  }

  /** Nobody takes more than the share, and if anything is left everybody took all they could. */
  lemma {:induction false} ShareBounds(lengths: seq<nat>, budgets: seq<nat>, share: nat, remaining: nat, j: nat)
    requires Within(budgets, lengths) && j < |lengths|
    ensures var r := Share(lengths, budgets, share, remaining);
            && budgets[j] <= r.0[j] <= budgets[j] + share
            && (r.1 > 0 ==> r.0[j] == Min(lengths[j], budgets[j] + share))
  {
    if j > 0 {
      var take := Min(Min(lengths[0] - budgets[0], share), remaining);
      ShareBounds(lengths[1..], budgets[1..], share, remaining - take, j - 1);
    }
  }

  /** When the pass runs dry, what any open section misses is at most what all of them miss together. */
  lemma {:induction false} ShareShortfall(lengths: seq<nat>, budgets: seq<nat>, share: nat, remaining: nat, j: nat)
    requires Within(budgets, lengths) && j < |lengths|
    ensures var r := Share(lengths, budgets, share, remaining);
            budgets[j] < lengths[j] ==>
              budgets[j] + share - r.0[j] <= OpenCount(lengths, budgets) * share - (remaining - r.1)
  {
    var take := Min(Min(lengths[0] - budgets[0], share), remaining);
    var tail := Share(lengths[1..], budgets[1..], share, remaining - take);
    ShareAtMost(lengths[1..], budgets[1..], share, remaining - take);
    OpenStep(lengths, budgets, share);
    if j > 0 {
      ShareShortfall(lengths[1..], budgets[1..], share, remaining - take, j - 1);
    }
  }

  lemma {:induction false} OpenStep(lengths: seq<nat>, budgets: seq<nat>, share: nat)
    requires Within(budgets, lengths) && lengths != []
    ensures OpenCount(lengths, budgets) * share ==
            (if budgets[0] < lengths[0] then share else 0) + OpenCount(lengths[1..], budgets[1..]) * share
  {
    OneMore(1 + OpenCount(lengths[1..], budgets[1..]), share);
  }

  lemma {:induction false} ShareAtMost(lengths: seq<nat>, budgets: seq<nat>, share: nat, remaining: nat)
    requires Within(budgets, lengths)
    ensures remaining - Share(lengths, budgets, share, remaining).1 <= OpenCount(lengths, budgets) * share
  {
    if lengths != [] {
      var take := Min(Min(lengths[0] - budgets[0], share), remaining);
      ShareAtMost(lengths[1..], budgets[1..], share, remaining - take);
      OpenStep(lengths, budgets, share);
    }
  }

  lemma {:induction false} NoneOpen(lengths: seq<nat>, budgets: seq<nat>)
    requires Within(budgets, lengths)
    ensures OpenCount(lengths, budgets) <= |lengths|
    ensures OpenCount(lengths, budgets) == 0 <==> budgets == lengths
  {
    if lengths != [] {
      NoneOpen(lengths[1..], budgets[1..]);
      assert budgets == [budgets[0]] + budgets[1..] && lengths == [lengths[0]] + lengths[1..];
    }
  }

  lemma {:induction false} SumWithin(lengths: seq<nat>, budgets: seq<nat>)
    requires Within(budgets, lengths)
    ensures Sum(budgets) <= Sum(lengths)
    ensures Sum(budgets) == Sum(lengths) ==> budgets == lengths
  {
    if lengths != [] {
      SumWithin(lengths[1..], budgets[1..]);
      assert budgets == [budgets[0]] + budgets[1..] && lengths == [lengths[0]] + lengths[1..];
    }
  }

  lemma {:induction false} ShareProgresses(lengths: seq<nat>, budgets: seq<nat>, share: nat, remaining: nat, j: nat)
    requires Within(budgets, lengths) && j < |lengths| && budgets[j] < lengths[j] && share > 0 && remaining > 0
    ensures Share(lengths, budgets, share, remaining).1 < remaining
  {
    hide Share;
    var r := Share(lengths, budgets, share, remaining);
    ShareConserves(lengths, budgets, share, remaining);
    forall i | 0 <= i < |lengths| ensures budgets[i] <= r.0[i] {
      ShareBounds(lengths, budgets, share, remaining, i);
    }
    ShareBounds(lengths, budgets, share, remaining, j);
    SumWithin(r.0, budgets);
  }

  lemma {:induction false} ShareNothing(lengths: seq<nat>, budgets: seq<nat>, share: nat)
    requires Within(budgets, lengths)
    ensures Share(lengths, budgets, share, 0) == (budgets, 0)
  {
    if lengths != [] {
      ShareNothing(lengths[1..], budgets[1..], share);
      assert budgets == [budgets[0]] + budgets[1..];
    }
  }

  method ShareOut(lengths: seq<nat>, start: seq<nat>, share: nat, left: nat)
    returns (budgets: seq<nat>, remaining: nat, distributed: nat)
    requires Within(start, lengths)
    ensures (budgets, remaining) == Share(lengths, start, share, left) && distributed == left - remaining
  {
    hide Share;
    budgets, remaining, distributed := start, left, 0;
    assert lengths[0..] == lengths && start[0..] == start;
    assert [] + Share(lengths, start, share, left).0 == Share(lengths, start, share, left).0;
    for index := 0 to |lengths|
      invariant |budgets| == |lengths| && budgets[index..] == start[index..]
      invariant Within(start[index..], lengths[index..])
      invariant distributed == left - remaining
      invariant Share(lengths, start, share, left) ==
                (budgets[..index] + Share(lengths[index..], start[index..], share, remaining).0,
                 Share(lengths[index..], start[index..], share, remaining).1)
    {
      if remaining == 0 {
        ShareNothing(lengths[index..], start[index..], share);
        assert budgets == budgets[..index] + budgets[index..];
        return;
      }
      assert budgets[index] == budgets[index..][0] == start[index..][0];
      ShareStep(lengths[index..], start[index..], share, remaining);
      assert lengths[index..][1..] == lengths[index + 1..] && start[index..][1..] == start[index + 1..];
      var take := Min(Min(lengths[index] - budgets[index], share), remaining);
      ghost var before := budgets;
      budgets := budgets[index := budgets[index] + take];
      remaining := remaining - take;
      ghost var tail := Share(lengths[index + 1..], start[index + 1..], share, remaining).0;
      assert before[..index] + ([budgets[index]] + tail) == budgets[..index + 1] + tail;
      distributed := distributed + take;
    }
    ShareEnd(share, remaining);
    assert budgets[..|lengths|] + [] == budgets && lengths[|lengths|..] == [] && start[|lengths|..] == [];
  }

  lemma {:induction false} ShareEnd(share: nat, remaining: nat)
    ensures Share([], [], share, remaining) == ([], remaining)
  {
  }

  lemma {:induction false} ShareStep(lengths: seq<nat>, budgets: seq<nat>, share: nat, remaining: nat)
    requires Within(budgets, lengths) && lengths != []
    ensures var take := Min(Min(lengths[0] - budgets[0], share), remaining);
            var tail := Share(lengths[1..], budgets[1..], share, remaining - take);
            Share(lengths, budgets, share, remaining) == ([budgets[0] + take] + tail.0, tail.1)
  {
  }

  function DivCeil(x: nat, k: nat): nat
    requires k > 0
  {
    (x + k - 1) / k
  }

  lemma {:induction false} DivCeilBounds(x: nat, k: nat)
    requires k > 0 && x > 0
    ensures DivCeil(x, k) > 0 && x <= k * DivCeil(x, k) < x + k
  {
    Split(x + k - 1, k);
    QuotientFloor(x + k - 1, k, 1);
  }

  /** No section gets more than `n - 1` bytes above one that was cut short, `n` being the number of sections. */
  predicate Fair(budgets: seq<nat>, lengths: seq<nat>)
  {
    |budgets| == |lengths| &&
    forall i, j :: 0 <= i < |lengths| && 0 <= j < |lengths| && budgets[i] < lengths[i] ==>
      budgets[j] < budgets[i] + |lengths|
  }

  /** Every section filled to the same level, or full below it. */
  ghost predicate AtLevel(budgets: seq<nat>, lengths: seq<nat>, level: nat)
  {
    |budgets| == |lengths| && forall i :: 0 <= i < |lengths| ==> budgets[i] == Min(lengths[i], level)
  }

  lemma {:induction false} ShareRaisesLevel(
      lengths: seq<nat>, budgets: seq<nat>, share: nat, remaining: nat, level: nat)
    requires Within(budgets, lengths) && AtLevel(budgets, lengths, level)
    ensures var r := Share(lengths, budgets, share, remaining);
            r.1 > 0 ==> AtLevel(r.0, lengths, level + share)
  {
    hide Share;
    forall j | 0 <= j < |lengths|
      ensures var r := Share(lengths, budgets, share, remaining);
              r.1 > 0 ==> r.0[j] == Min(lengths[j], level + share)
    {
      ShareBounds(lengths, budgets, share, remaining, j);
    }
  }

  lemma {:induction false} ShareIsFair(lengths: seq<nat>, budgets: seq<nat>, remaining: nat, level: nat)
    requires Within(budgets, lengths) && AtLevel(budgets, lengths, level)
    requires OpenCount(lengths, budgets) > 0 && remaining > 0
    ensures Fair(Share(lengths, budgets, DivCeil(remaining, OpenCount(lengths, budgets)), remaining).0, lengths)
  {
    hide Share, OpenCount, DivCeil;
    var open := OpenCount(lengths, budgets);
    var share := DivCeil(remaining, open);
    var r := Share(lengths, budgets, share, remaining);
    DivCeilBounds(remaining, open);
    NoneOpen(lengths, budgets);
    ShareRaisesLevel(lengths, budgets, share, remaining, level);
    forall i, j | 0 <= i < |lengths| && 0 <= j < |lengths| && r.0[i] < lengths[i]
      ensures r.0[j] < r.0[i] + |lengths|
    {
      ShareBounds(lengths, budgets, share, remaining, i);
      ShareBounds(lengths, budgets, share, remaining, j);
      ShareShortfall(lengths, budgets, share, remaining, i);
    }
  }

  lemma {:induction false} SomeOpen(lengths: seq<nat>, budgets: seq<nat>) returns (j: nat)
    requires Within(budgets, lengths) && Sum(budgets) < Sum(lengths)
    ensures j < |lengths| && budgets[j] < lengths[j]
    ensures OpenCount(lengths, budgets) > 0
  {
    NoneOpen(lengths, budgets);
    j :| 0 <= j < |lengths| && budgets[j] != lengths[j];
  }

  /** Shares a byte limit over the sections: nothing wasted, no section over its length, none favoured. */
  method FairSectionBudgets(lengths: seq<nat>, limit: nat) returns (budgets: seq<nat>)
    requires limit <= U64_MAX
    ensures Within(budgets, lengths) && Sum(budgets) == Min(limit, Sum(lengths))
    ensures Fair(budgets, lengths)
  {
    hide Share, OpenCount, Sum, DivCeil, Fair;
    var total := SaturatingTotal(lengths);
    var remaining: nat := Min(limit, total);
    budgets := seq(|lengths|, _ => 0);
    ghost var level := 0;
    NothingYet(budgets, lengths);
    while remaining > 0
      invariant Within(budgets, lengths)
      invariant Sum(budgets) + remaining == Min(limit, Sum(lengths))
      invariant remaining > 0 ==> AtLevel(budgets, lengths, level)
      invariant Fair(budgets, lengths)
    {
      ghost var j := SomeOpen(lengths, budgets);
      var open := OpenCount(lengths, budgets);
      if open == 0 { break; }
      var share := DivCeil(remaining, open);
      DivCeilBounds(remaining, open);
      ShareProgresses(lengths, budgets, share, remaining, j);
      ShareConserves(lengths, budgets, share, remaining);
      ShareRaisesLevel(lengths, budgets, share, remaining, level);
      ShareIsFair(lengths, budgets, remaining, level);
      level := level + share;
      var distributed;
      budgets, remaining, distributed := ShareOut(lengths, budgets, share, remaining);
      if distributed == 0 { break; }
    }
  }

  lemma {:induction false} NothingYet(budgets: seq<nat>, lengths: seq<nat>)
    requires |budgets| == |lengths| && forall i :: 0 <= i < |budgets| ==> budgets[i] == 0
    ensures Sum(budgets) == 0 && Fair(budgets, lengths) && AtLevel(budgets, lengths, 0)
  {
    NoSum(budgets);
  }

  lemma {:induction false} NoSum(s: seq<nat>)
    requires forall i :: 0 <= i < |s| ==> s[i] == 0
    ensures Sum(s) == 0
  {
    if s != [] { NoSum(s[1..]); }
  }

  method SaturatingTotal(lengths: seq<nat>) returns (total: nat)
    ensures total == Min(Sum(lengths), U64_MAX)
  {
    total := 0;
    for i := 0 to |lengths|
      invariant total == Min(Sum(lengths[..i]), U64_MAX)
    {
      assert lengths[..i + 1] == lengths[..i] + [lengths[i]];
      SumAppend(lengths[..i], lengths[i]);
      total := Min(total + lengths[i], U64_MAX);
    }
    assert lengths[..|lengths|] == lengths;
  }

  function Lengths(sections: seq<Bytes>): (r: seq<nat>)
    ensures |r| == |sections|
  {
    seq(|sections|, i requires 0 <= i < |sections| => |sections[i]|)
  }

  function SectionSamples(sections: seq<Bytes>, budgets: seq<nat>): TrainingSample
    requires |sections| == |budgets|
  {
    if sections == [] then TrainingSample([], []) else
    var n := |sections| - 1;
    Joined(SectionSamples(sections[..n], budgets[..n]), SectionSample(sections[n], budgets[n]))
  }

  lemma {:induction false} SectionSamplesFill(sections: seq<Bytes>, budgets: seq<nat>)
    requires Within(budgets, Lengths(sections))
    ensures Consistent(SectionSamples(sections, budgets))
    ensures |SectionSamples(sections, budgets).data| == Sum(budgets)
    ensures |SectionSamples(sections, budgets).sizes| <= TRAINING_WINDOWS * |sections|
  {
    hide SectionSample;
    if sections != [] {
      var n := |sections| - 1;
      SectionSamplesFill(sections[..n], budgets[..n]);
      SumAppend(budgets[..n], budgets[n]);
      assert budgets == budgets[..n] + [budgets[n]];
    }
  }

  /**
    Samples the reusable sections of a block, when it has any. The whole
    limit is used unless the sections are shorter than it.
   */
  method SampleStructuralTraining(sections: Option<seq<Bytes>>, limit: nat) returns (r: Option<TrainingSample>)
    requires limit <= U64_MAX
    ensures r.None? <==> sections.None? || Min(limit, Sum(Lengths(sections.value))) == 0
    ensures r.Some? ==> Consistent(r.value) && |r.value.data| == Min(limit, Sum(Lengths(sections.value)))
    ensures r.Some? ==> |r.value.sizes| <= TRAINING_WINDOWS * |sections.value|
  {
    hide Sum, SectionSample, Joined, Consistent;
    if sections.None? { return None; }
    var parts := sections.value;
    var budgets := FairSectionBudgets(Lengths(parts), limit);
    var sample := TrainingSample([], []);
    for i := 0 to |parts|
      invariant sample == SectionSamples(parts[..i], budgets[..i])
    {
      sample := AppendTrainingWindows(parts[i], budgets[i], sample);
      assert parts[..i + 1][..i] == parts[..i] && budgets[..i + 1][..i] == budgets[..i];
    }
    assert parts[..|parts|] == parts && budgets[..|parts|] == budgets;
    SectionSamplesFill(parts, budgets);
    if sample.data == [] { return None; }
    return Some(sample);
  }

  /** What a sealed block offers the learner: a training sample and a holdout sample, both within the limit. */
  method ObserveStructuralBlock(structural: Bytes, sections: Option<seq<Bytes>>, limit: nat)
    returns (holdout: Bytes, training: TrainingSample)
    requires limit <= U64_MAX
    ensures |holdout| == Min(limit, |structural|)
    ensures Consistent(training) && |training.data| <= limit
    ensures limit > 0 && structural != [] ==> training.data != []
  {
    var sample := SampleStructuralTraining(sections, limit);
    if sample.Some? {
      training := sample.value;
    } else {
      var bytes := SampleBytes(structural, limit);
      training := ChunkTrainingSample(bytes);
    }
    if |structural| <= limit {
      holdout := structural;
    } else {
      holdout := SampleBytes(structural, limit);
    }
  }

  // ----- Truncation

  /** The sizes that cover the first `limit` bytes, the last one trimmed. */
  function Cut(sizes: seq<nat>, limit: nat): seq<nat>
  {
    if sizes == [] || limit == 0 then []
    else if sizes[0] == 0 then Cut(sizes[1..], limit)
    else [Min(sizes[0], limit)] + Cut(sizes[1..], limit - Min(sizes[0], limit))
  }

  lemma {:induction false} CutSum(sizes: seq<nat>, limit: nat)
    ensures Sum(Cut(sizes, limit)) == Min(limit, Sum(sizes))
    ensures forall n :: n in Cut(sizes, limit) ==> n > 0
  {
    if sizes != [] && limit > 0 {
      CutSum(sizes[1..], limit - Min(sizes[0], limit));
    }
  }

  /** Trimming keeps every piece but the last as it was. */
  lemma {:induction false} CutKeepsPieces(sizes: seq<nat>, limit: nat, i: nat)
    requires (forall n :: n in sizes ==> n > 0) && i < |Cut(sizes, limit)|
    ensures |Cut(sizes, limit)| <= |sizes|
    ensures i + 1 < |Cut(sizes, limit)| ==> Cut(sizes, limit)[i] == sizes[i]
    ensures Cut(sizes, limit)[i] <= sizes[i]
  {
    assert sizes[0] in sizes && forall n :: n in sizes[1..] ==> n in sizes;
    var rest := Cut(sizes[1..], limit - Min(sizes[0], limit));
    assert Cut(sizes, limit) == [Min(sizes[0], limit)] + rest;
    if rest != [] { CutKeepsPieces(sizes[1..], limit - Min(sizes[0], limit), if i > 0 then i - 1 else 0); }
  }

  function Shortened(sample: TrainingSample, limit: nat): TrainingSample
  {
    if |sample.data| <= limit then sample else TrainingSample(sample.data[..limit], Cut(sample.sizes, limit))
  }

  method TruncateTrainingSample(sample: TrainingSample, limit: nat) returns (r: TrainingSample)
    ensures r == Shortened(sample, limit)
  {
    if |sample.data| <= limit { return sample; }
    var retained: nat, sizes: seq<nat> := 0, [];
    for i := 0 to |sample.sizes|
      invariant retained <= limit
      invariant Cut(sample.sizes, limit) == sizes + Cut(sample.sizes[i..], limit - retained)
    {
      var remaining := limit - retained;
      if remaining == 0 { break; }
      var kept := Min(sample.sizes[i], remaining);
      assert sample.sizes[i..][0] == sample.sizes[i] && sample.sizes[i..][1..] == sample.sizes[i + 1..];
      if kept > 0 {
        ghost var rest := Cut(sample.sizes[i + 1..], remaining - kept);
        assert sizes + ([kept] + rest) == (sizes + [kept]) + rest;
        sizes := sizes + [kept];
        retained := retained + kept;
      }
    }
    assert sizes + [] == sizes;
    return TrainingSample(sample.data[..limit], sizes);
  }

  /** A truncated sample is a prefix of exactly the length allowed, with sizes that still add up. */
  lemma {:induction false} ShortenedAddsUp(sample: TrainingSample, limit: nat)
    requires Consistent(sample)
    ensures Consistent(Shortened(sample, limit))
    ensures Shortened(sample, limit).data == sample.data[..Min(limit, |sample.data|)]
  {
    CutSum(sample.sizes, limit);
  }
}
