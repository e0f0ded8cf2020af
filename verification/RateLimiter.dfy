/**
  The integer token bucket at the ingest boundary. Fractions of a byte are
  carried in `remainder`, in billionths, so that slow rates lose nothing.
 */
module RateLimiter {
  import opened Base

  const NANOS: nat := 1_000_000_000
  const U128_MAX: nat := 0xFFFF_FFFF_FFFF_FFFF_FFFF_FFFF_FFFF_FFFF

  datatype Limits = Limits(rate: u64, burst: u64)

  datatype Bucket = Bucket(tokens: u64, remainder: u128, updated: nat)

  /** A request for some bytes at some time. */
  datatype Request = Request(bytes: u64, now: nat)

  predicate WellFilled(l: Limits, b: Bucket)
  {
    b.tokens <= l.burst && b.remainder < NANOS
  }

  function Elapsed(b: Bucket, now: nat): nat { Max(now - b.updated, 0) }

  /** Billionths of a byte earned since the last refill. */
  function Produced(l: Limits, b: Bucket, now: nat): nat { Elapsed(b, now) * l.rate }

  function Refilled(l: Limits, b: Bucket, now: nat): (r: Bucket)
    ensures WellFilled(l, r) && r.updated == now
  {
    var generated := Min(Min(Produced(l, b, now), U128_MAX) + b.remainder, U128_MAX);
    var added := Min(generated / NANOS, U64_MAX);
    Bucket(Min(Min(b.tokens + added, U64_MAX), l.burst), generated % NANOS, now)
  }

  /** One attempt: the bucket afterwards and whether the bytes were let in. */
  function Attempt(l: Limits, b: Bucket, r: Request): (Bucket, bool)
  {
    if l.rate == 0 then (b, true)
    else if r.bytes > l.burst then (b, false)
    else
      var full := Refilled(l, b, r.now);
      if full.tokens < r.bytes then (full, false) else (full.(tokens := full.tokens - r.bytes), true)
  }

  class IngestRateLimiter {
    const limits: Limits
    var state: Bucket
    /** A panic while the lock was held. */
    var poisoned: bool

    constructor (limits: Limits, now: nat)
      ensures this.limits == limits && state == Bucket(limits.burst, 0, now) && WellFilled(limits, state) && !poisoned
    {
      this.limits := limits;
      state, poisoned := Bucket(limits.burst, 0, now), false;
    }

    /**
      Lets the bytes in exactly when the refilled bucket holds them, and keeps
      the bucket within its bounds. A poisoned lock refuses whatever is limited.
     */
    method TryAcquire(bytes: u64, now: nat) returns (admitted: bool)
      requires WellFilled(limits, state)
      modifies this`state
      ensures WellFilled(limits, state)
      ensures !poisoned ==> (state, admitted) == Attempt(limits, old(state), Request(bytes, now))
      ensures poisoned ==> state == old(state) && (admitted <==> limits.rate == 0)
    {
      hide Produced;
      if limits.rate == 0 { return true; }
      if bytes > limits.burst { return false; }
      if poisoned { return false; }
      var generated := Min(Min(Produced(limits, state, now), U128_MAX) + state.remainder, U128_MAX);
      var added := generated / NANOS;
      var tokens := Min(Min(state.tokens + Min(added, U64_MAX), U64_MAX), limits.burst);
      state := Bucket(tokens, generated % NANOS, now);
      if state.tokens < bytes { return false; }
      state := state.(tokens := state.tokens - bytes);
      return true;
    }
  }

  // ----- Runs

  function Run(l: Limits, b: Bucket, rs: seq<Request>): Bucket
  {
    if rs == [] then b else Attempt(l, Run(l, b, rs[..|rs| - 1]), rs[|rs| - 1]).0
  }

  /** Bytes let in over a run. */
  function AdmittedBytes(l: Limits, b: Bucket, rs: seq<Request>): nat
  {
    if rs == [] then 0 else
    var last := rs[|rs| - 1];
    AdmittedBytes(l, b, rs[..|rs| - 1]) + if Attempt(l, Run(l, b, rs[..|rs| - 1]), last).1 then last.bytes else 0
  }

  /** Nanoseconds the bucket was refilled for over a run. */
  function RefillTime(l: Limits, b: Bucket, rs: seq<Request>): nat
  {
    if rs == [] then 0 else
    var last := rs[|rs| - 1];
    RefillTime(l, b, rs[..|rs| - 1]) + if last.bytes > l.burst then 0 else Elapsed(Run(l, b, rs[..|rs| - 1]), last.now)
  }

  /** Everything the bucket holds, in billionths of a byte. */
  function Holding(b: Bucket): nat { NANOS * b.tokens + b.remainder }

  /** Neither the cap nor any saturation takes anything away from a refill. */
  predicate NothingLost(l: Limits, b: Bucket, now: nat)
  {
    var generated := Elapsed(b, now) * l.rate + b.remainder;
    generated <= U128_MAX && generated / NANOS <= U64_MAX && b.tokens + generated / NANOS <= l.burst
  }

  lemma {:induction false} RefillHolding(l: Limits, b: Bucket, now: nat)
    requires WellFilled(l, b)
    ensures Holding(Refilled(l, b, now)) <= Holding(b) + Elapsed(b, now) * l.rate
    ensures Holding(Refilled(l, b, now)) == Holding(b) + Elapsed(b, now) * l.rate <==> NothingLost(l, b, now)
  {
    RefillOf(l, b, Elapsed(b, now) * l.rate, now);
  }

  lemma {:induction false} RefillOf(l: Limits, b: Bucket, produced: nat, now: nat)
    requires WellFilled(l, b) && produced == Elapsed(b, now) * l.rate
    ensures Holding(Refilled(l, b, now)) <= Holding(b) + produced
    ensures Holding(Refilled(l, b, now)) == Holding(b) + produced <==> NothingLost(l, b, now)
  {
    var generated := Min(Min(produced, U128_MAX) + b.remainder, U128_MAX);
    assert generated == NANOS * (generated / NANOS) + generated % NANOS;
    if produced + b.remainder <= U128_MAX {
      assert generated == produced + b.remainder;
    }
  }

  lemma {:induction false} AttemptHolding(l: Limits, b: Bucket, r: Request)
    requires WellFilled(l, b) && l.rate > 0
    ensures var a := Attempt(l, b, r);
            var produced := if r.bytes > l.burst then 0 else Elapsed(b, r.now) * l.rate;
            && WellFilled(l, a.0)
            && Holding(a.0) + NANOS * (if a.1 then r.bytes else 0) <= Holding(b) + produced
            && (Holding(a.0) + NANOS * (if a.1 then r.bytes else 0) == Holding(b) + produced
                <==> r.bytes > l.burst || NothingLost(l, b, r.now))
  {
    hide Refilled, NothingLost;
    RefillHolding(l, b, r.now);
  }

  lemma {:induction false} RunWellFilled(l: Limits, b: Bucket, rs: seq<Request>)
    requires WellFilled(l, b)
    ensures WellFilled(l, Run(l, b, rs))
  {
    hide Refilled;
    if rs != [] { RunWellFilled(l, b, rs[..|rs| - 1]); }
  }

  /** No refill along the run lost anything. */
  ghost predicate NothingLostIn(l: Limits, b: Bucket, rs: seq<Request>)
  {
    forall i :: 0 <= i < |rs| ==> rs[i].bytes > l.burst || NothingLost(l, Run(l, b, rs[..i]), rs[i].now)
  }

  lemma {:induction false} Distribute(rate: nat, a: nat, b: nat)
    ensures (a + b) * rate == a * rate + b * rate
  {
  }

  /** The run's account: what was let in and what is left never exceed what was there and what was refilled. */
  lemma {:induction false} RunHolding(l: Limits, b: Bucket, rs: seq<Request>)
    requires WellFilled(l, b) && l.rate > 0
    ensures Holding(Run(l, b, rs)) + NANOS * AdmittedBytes(l, b, rs) <= Holding(b) + RefillTime(l, b, rs) * l.rate
    ensures Holding(Run(l, b, rs)) + NANOS * AdmittedBytes(l, b, rs) == Holding(b) + RefillTime(l, b, rs) * l.rate
            <==> NothingLostIn(l, b, rs)
  {
    hide Attempt, NothingLost, Holding, Elapsed, WellFilled;
    if rs != [] {
      var n := |rs| - 1;
      RunHolding(l, b, rs[..n]);
      RunWellFilled(l, b, rs[..n]);
      AttemptHolding(l, Run(l, b, rs[..n]), rs[n]);
      Distribute(l.rate, RefillTime(l, b, rs[..n]),
                 if rs[n].bytes > l.burst then 0 else Elapsed(Run(l, b, rs[..n]), rs[n].now));
      LastLoss(l, b, rs);
    }
  }

  lemma {:induction false} LastLoss(l: Limits, b: Bucket, rs: seq<Request>)
    requires rs != []
    ensures var n := |rs| - 1;
            NothingLostIn(l, b, rs) <==>
            NothingLostIn(l, b, rs[..n]) && (rs[n].bytes > l.burst || NothingLost(l, Run(l, b, rs[..n]), rs[n].now))
  {
    hide NothingLost, Run;
    var n := |rs| - 1;
    assert forall i :: 0 <= i < n ==> rs[..n][..i] == rs[..i] && rs[..n][i] == rs[i];
    if NothingLostIn(l, b, rs[..n]) && (rs[n].bytes > l.burst || NothingLost(l, Run(l, b, rs[..n]), rs[n].now)) {
      forall i | 0 <= i < |rs| ensures rs[i].bytes > l.burst || NothingLost(l, Run(l, b, rs[..i]), rs[i].now) {
        if i < n { assert rs[..n][..i] == rs[..i]; }
      }
    }
    if NothingLostIn(l, b, rs) {
      forall i | 0 <= i < n
        ensures rs[..n][i].bytes > l.burst || NothingLost(l, Run(l, b, rs[..n][..i]), rs[..n][i].now)
      {
        assert rs[..n][..i] == rs[..i];
      }
    }
  }

  /** Any window of any run: it starts at a reachable bucket, so the burst and the refill bound what it lets in. */
  lemma {:induction false} WindowBound(l: Limits, start: nat, before: seq<Request>, window: seq<Request>)
    requires l.rate > 0
    ensures var b := Run(l, Bucket(l.burst, 0, start), before);
            && b.tokens <= l.burst && b.remainder < NANOS
            && NANOS * AdmittedBytes(l, b, window) <= NANOS * l.burst + b.remainder + RefillTime(l, b, window) * l.rate
  {
    hide AdmittedBytes, RefillTime, Run;
    RunWellFilled(l, Bucket(l.burst, 0, start), before);
    RunHolding(l, Run(l, Bucket(l.burst, 0, start), before), window);
  }

  // ----- Clock time

  predicate Forward(from: nat, rs: seq<Request>)
  {
    (forall i :: 0 <= i < |rs| ==> from <= rs[i].now) && forall i, j :: 0 <= i < j < |rs| ==> rs[i].now <= rs[j].now
  }

  /** On a clock that never runs back, the refills cover the time since the bucket was last touched. */
  lemma {:induction false} RefillsCoverClock(l: Limits, b: Bucket, rs: seq<Request>)
    requires Forward(b.updated, rs) && l.rate > 0
    ensures RefillTime(l, b, rs) == Run(l, b, rs).updated - b.updated
    ensures b.updated <= Run(l, b, rs).updated <= if rs == [] then b.updated else rs[|rs| - 1].now
  {
    hide Refilled;
    if rs != [] { RefillsCoverClock(l, b, rs[..|rs| - 1]); }
  }

  /** Either nothing got in and the bucket is untouched, or the account is kept from time `from`. */
  ghost predicate AccountFrom(l: Limits, b: Bucket, rs: seq<Request>, from: nat)
  {
    var now := Run(l, b, rs);
    || (now == b && AdmittedBytes(l, b, rs) == 0)
    || (from <= now.updated &&
        Holding(now) + NANOS * AdmittedBytes(l, b, rs) < NANOS * (l.burst + 1) + (now.updated - from) * l.rate)
  }

  lemma {:induction false} FirstRefill(l: Limits, b: Bucket, r: Request, from: nat)
    requires WellFilled(l, b) && l.rate > 0 && from <= r.now && r.bytes <= l.burst
    ensures var a := Attempt(l, b, r);
            a.0.updated == r.now && Holding(a.0) + NANOS * (if a.1 then r.bytes else 0) < NANOS * (l.burst + 1)
  {
    hide Refilled;
  }

  lemma {:induction false} AccountStep(l: Limits, b: Bucket, rs: seq<Request>, from: nat)
    requires WellFilled(l, b) && l.rate > 0 && rs != [] && Forward(b.updated, rs) && Forward(from, rs)
    requires AccountFrom(l, b, rs[..|rs| - 1], from)
    ensures AccountFrom(l, b, rs, from)
  {
    hide Attempt, Holding, WellFilled, Forward;
    var n := |rs| - 1;
    var before, r := Run(l, b, rs[..n]), rs[n];
    RunWellFilled(l, b, rs[..n]);
    ClockSince(l, b, rs, from);
    if r.bytes > l.burst {
      TooBig(l, before, r);
    } else {
      FirstRefill(l, before, r, from);
      AttemptHolding(l, before, r);
      if from <= before.updated { Distribute(l.rate, before.updated - from, r.now - before.updated); }
      Grows(l.rate, r.now - from);
    }
  }

  lemma {:induction false} Grows(rate: nat, time: nat)
    ensures time * rate >= 0
  {
  }

  lemma {:induction false} TooBig(l: Limits, b: Bucket, r: Request)
    requires l.rate > 0 && r.bytes > l.burst
    ensures Attempt(l, b, r) == (b, false)
  {
  }

  lemma {:induction false} ClockSince(l: Limits, b: Bucket, rs: seq<Request>, from: nat)
    requires Forward(b.updated, rs) && Forward(from, rs) && l.rate > 0 && rs != []
    ensures Run(l, b, rs[..|rs| - 1]).updated <= rs[|rs| - 1].now
    ensures from <= rs[|rs| - 1].now
  {
    RefillsCoverClock(l, b, rs[..|rs| - 1]);
  }

  lemma {:induction false} Account(l: Limits, b: Bucket, rs: seq<Request>, from: nat)
    requires WellFilled(l, b) && l.rate > 0 && Forward(b.updated, rs) && Forward(from, rs)
    ensures AccountFrom(l, b, rs, from)
  {
    hide AccountFrom, WellFilled;
    if rs == [] {
      NoAccount(l, b, from);
    } else {
      Account(l, b, rs[..|rs| - 1], from);
      AccountStep(l, b, rs, from);
    }
  }

  lemma {:induction false} NoAccount(l: Limits, b: Bucket, from: nat)
    ensures AccountFrom(l, b, [], from)
  {
  }

  /** From a window's first attempt to its last, no more than a burst, the time's worth and a last fraction get in. */
  lemma {:induction false} ClockBound(l: Limits, b: Bucket, window: seq<Request>)
    requires WellFilled(l, b) && l.rate > 0 && window != [] && Forward(b.updated, window)
    ensures NANOS * AdmittedBytes(l, b, window)
            < NANOS * (l.burst + 1) + (window[|window| - 1].now - window[0].now) * l.rate
  {
    hide Run, AdmittedBytes, RefillTime, WellFilled;
    var from, to := window[0].now, window[|window| - 1].now;
    Account(l, b, window, from);
    RefillsCoverClock(l, b, window);
    Grows(l.rate, to - from);
    if from <= Run(l, b, window).updated {
      Distribute(l.rate, Run(l, b, window).updated - from, to - Run(l, b, window).updated);
      Grows(l.rate, to - Run(l, b, window).updated);
    }
  }
}
