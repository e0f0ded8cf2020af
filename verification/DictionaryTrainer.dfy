/**
  The background dictionary learner: per placement, collect samples, train a
  candidate, compare it on later blocks, publish or drop it, then cool down.
 */
module DictionaryTrainer {
  import opened Base
  import opened Sampling
  import opened DictionaryCatalog

  const MIN_TRAINING_PIECES: nat := 8
  const BASIS_POINTS: nat := 10_000

  datatype Config = Config(
    maxBlockSampleBytes: u64, trainingSampleBytes: u64, dictionaryBytes: u64, holdoutBlocks: u64, queueBlocks: u64,
    maxPlacements: u64, minNetSavingsBytes: u64, minNetSavingsBps: u16, retrainAfterBytes: u64)

  predicate ValidConfig(c: Config)
  {
    && 8 <= c.maxBlockSampleBytes <= c.trainingSampleBytes
    && 256 <= c.dictionaryBytes < c.trainingSampleBytes
    && c.holdoutBlocks > 0 && c.queueBlocks > 0 && c.maxPlacements > 0
    && c.minNetSavingsBps <= BASIS_POINTS && c.retrainAfterBytes > 0
  }

  datatype ConfigError = BlockSample | TrainingSize | DictionarySize | ZeroBound | SavingsBps | Cooldown
    | CompressionLevel

  /** Rejects exactly the configurations the learner cannot run with, naming the first fault. */
  method ValidateConfig(c: Config) returns (r: Option<ConfigError>)
    ensures r.None? <==> ValidConfig(c)
    ensures r != Some(CompressionLevel)
  {
    if c.maxBlockSampleBytes < 8 { return Some(BlockSample); }
    if c.trainingSampleBytes < c.maxBlockSampleBytes { return Some(TrainingSize); }
    if c.dictionaryBytes < 256 || c.dictionaryBytes >= c.trainingSampleBytes { return Some(DictionarySize); }
    if c.holdoutBlocks == 0 || c.queueBlocks == 0 || c.maxPlacements == 0 { return Some(ZeroBound); }
    if c.minNetSavingsBps > BASIS_POINTS { return Some(SavingsBps); }
    if c.retrainAfterBytes == 0 { return Some(Cooldown); }
    return None;
  }

  /** The dictionary trainer, compressor and digest, as functions of their inputs. */
  datatype Zstd = Zstd(
    train: (Bytes, seq<nat>, nat) -> Option<Bytes>, identify: Bytes -> u128, accepts: Bytes -> bool,
    compress: (Bytes, Bytes) -> Option<Bytes>, decompress: (Bytes, Bytes, nat) -> Option<Bytes>,
    lowestLevel: i32, highestLevel: i32)

  datatype Candidate = Candidate(id: u128, payload: Bytes)

  datatype Placement = Placement(
    training: seq<TrainingSample>, trainingBytes: nat, holdout: seq<Bytes>, originalBytes: u64,
    baselineBytes: u64, candidateBytes: u64, candidate: Option<Candidate>, cooldown: u64)

  const FRESH: Placement := Placement([], 0, [], 0, 0, 0, None, 0)

  datatype Observation = Observation(placement: u64, originalBytes: u64, holdout: Bytes, training: TrainingSample)

  // ----- What the learner is judged by

  /** A held-out sample and the dictionary it was compared against. */
  datatype Compared = Compared(baseline: Bytes, sample: Bytes)

  function FrameBytes(z: Zstd, dictionary: Bytes, sample: Bytes): nat
  {
    match z.compress(dictionary, sample)
    case Some(frame) => |frame|
    case None => 0
  }

  function BaselineCost(z: Zstd, trial: seq<Compared>): nat
  {
    if trial == [] then 0 else
    var last := trial[|trial| - 1];
    BaselineCost(z, trial[..|trial| - 1]) + FrameBytes(z, last.baseline, last.sample)
  }

  function CandidateCost(z: Zstd, payload: Bytes, trial: seq<Compared>): nat
  {
    if trial == [] then 0 else
    CandidateCost(z, payload, trial[..|trial| - 1]) + FrameBytes(z, payload, trial[|trial| - 1].sample)
  }

  /** The dictionary, charged once, really saves the configured margins over the whole trial. */
  predicate Saves(c: Config, baseline: nat, candidate: nat, dictionary: nat)
  {
    && candidate + dictionary < baseline
    && baseline - (candidate + dictionary) >= c.minNetSavingsBytes
    && (baseline - (candidate + dictionary)) * BASIS_POINTS >= c.minNetSavingsBps * baseline
  }

  function Saturate(n: nat): u64 { Min(n, U64_MAX) }

  /** The admission test on the saturating counters. */
  predicate Admitted(c: Config, baseline: u64, candidate: u64, dictionary: u64)
  {
    var charged := Saturate(candidate + dictionary);
    var net := Max(baseline - charged, 0);
    && charged < baseline
    && net >= c.minNetSavingsBytes
    && Saturate(net * BASIS_POINTS) / Max(baseline, 1) >= c.minNetSavingsBps
  }

  /** Saturation can only hide savings: whatever passes the test saves the margins on the true totals. */
  lemma {:induction false} AdmittedSaves(c: Config, baseline: nat, candidate: nat, dictionary: nat)
    requires c.minNetSavingsBps <= BASIS_POINTS
    requires Admitted(c, Saturate(baseline), Saturate(candidate), Saturate(dictionary))
    ensures Saves(c, baseline, candidate, dictionary)
  {
    var shown := Saturate(baseline);
    var net := shown - (candidate + dictionary);
    assert shown == Max(shown, 1);
    QuotientTimes(Saturate(net * BASIS_POINTS), shown, c.minNetSavingsBps);
    assert net * BASIS_POINTS >= c.minNetSavingsBps * shown;
    MarginGrows(c.minNetSavingsBps, net, shown, baseline - shown);
  }

  /** With no counter near its limit the test is exactly the margins. */
  lemma {:induction false} AdmittedExactly(c: Config, baseline: nat, candidate: nat, dictionary: nat)
    requires baseline * BASIS_POINTS <= U64_MAX && candidate + dictionary <= U64_MAX
    ensures Admitted(c, baseline, candidate, dictionary) <==> Saves(c, baseline, candidate, dictionary)
  {
    if candidate + dictionary < baseline {
      var net := baseline - (candidate + dictionary);
      assert Saturate(net * BASIS_POINTS) == net * BASIS_POINTS;
      QuotientTimes(net * BASIS_POINTS, baseline, c.minNetSavingsBps);
    }
  }

  lemma {:induction false} QuotientTimes(x: nat, k: nat, n: nat)
    requires k > 0
    ensures x / k >= n <==> x >= n * k
  {
    if x >= n * k { QuotientFloor(x, k, n); }
    if x / k >= n { MulMonotone(n, x / k, k); Split(x, k); }
  }

  lemma {:induction false} MarginGrows(bps: nat, net: nat, shown: nat, extra: nat)
    requires bps <= BASIS_POINTS && net * BASIS_POINTS >= bps * shown
    ensures (net + extra) * BASIS_POINTS >= bps * (shown + extra)
  {
    MulMonotone(bps, BASIS_POINTS, extra);
    assert bps * (shown + extra) == bps * shown + bps * extra;
  }

  // ----- Phases

  function DataBytes(samples: seq<TrainingSample>): nat
  {
    if samples == [] then 0 else DataBytes(samples[..|samples| - 1]) + |samples[|samples| - 1].data|
  }

  ghost predicate Collecting(c: Config, s: Placement)
  {
    && s.candidate.None? && s.holdout == [] && s.cooldown == 0 && NoTotals(s)
    && s.trainingBytes == DataBytes(s.training) < c.trainingSampleBytes
    && forall t :: t in s.training ==> Consistent(t)
  }

  ghost predicate Evaluating(c: Config, z: Zstd, s: Placement, trial: seq<Compared>)
  {
    && s.candidate.Some? && s.training == [] && s.trainingBytes == 0 && s.cooldown == 0
    && |s.holdout| < c.holdoutBlocks && (forall h :: h in s.holdout ==> |h| <= c.maxBlockSampleBytes)
    && s.candidate.value.payload != [] && s.candidate.value.id == z.identify(s.candidate.value.payload)
    && s.baselineBytes == Saturate(BaselineCost(z, trial))
    && s.candidateBytes == Saturate(CandidateCost(z, s.candidate.value.payload, trial))
  }

  ghost predicate Cooling(c: Config, s: Placement)
  {
    s.candidate.None? && s.training == [] && s.trainingBytes == 0 && s.holdout == [] && NoTotals(s)
    && 0 < s.cooldown <= c.retrainAfterBytes
  }

  predicate NoTotals(s: Placement)
  {
    s.originalBytes == 0 && s.baselineBytes == 0 && s.candidateBytes == 0
  }

  ghost predicate InPhase(c: Config, z: Zstd, s: Placement, trial: seq<Compared>)
  {
    (trial == [] && (Collecting(c, s) || Cooling(c, s))) || Evaluating(c, z, s, trial)
  }

  /** The phases exclude one another. */
  lemma {:induction false} PhasesExclusive(c: Config, z: Zstd, s: Placement, trial: seq<Compared>)
    requires InPhase(c, z, s, trial)
    ensures !(Collecting(c, s) && Cooling(c, s)) && !(Collecting(c, s) && Evaluating(c, z, s, trial))
    ensures !(Cooling(c, s) && Evaluating(c, z, s, trial))
  {
  }

  function Reset(c: Config): Placement { Placement([], 0, [], 0, 0, 0, None, c.retrainAfterBytes) }

  // ----- Training

  function Concatenated(samples: seq<TrainingSample>): TrainingSample
  {
    if samples == [] then TrainingSample([], [])
    else Joined(Concatenated(samples[..|samples| - 1]), samples[|samples| - 1])
  }

  lemma {:induction false} ConcatenatedAddsUp(samples: seq<TrainingSample>)
    requires forall t :: t in samples ==> Consistent(t)
    ensures Consistent(Concatenated(samples)) && |Concatenated(samples).data| == DataBytes(samples)
  {
    hide Consistent, Joined;
    if samples == [] {
      NothingAddsUp();
    } else {
      ConcatenatedAddsUp(samples[..|samples| - 1]);
      JoinedBytes(Concatenated(samples[..|samples| - 1]), samples[|samples| - 1]);
    }
  }

  lemma {:induction false} NothingAddsUp()
    ensures Consistent(TrainingSample([], []))
  {
  }

  lemma {:induction false} JoinedBytes(a: TrainingSample, b: TrainingSample)
    ensures |Joined(a, b).data| == |a.data| + |b.data|
  {
  }

  /** An input as training requires it: exactly the configured length, in pieces that make it up. */
  ghost predicate FullInput(c: Config, input: TrainingSample)
  {
    |input.data| == c.trainingSampleBytes && Consistent(input)
  }

  /** The placement after training on what it collected. */
  function Trained(c: Config, z: Zstd, input: TrainingSample): Placement
  {
    var trained := z.train(input.data, input.sizes, c.dictionaryBytes);
    if |input.sizes| >= MIN_TRAINING_PIECES && trained.Some? && trained.value != []
    then FRESH.(candidate := Some(Candidate(z.identify(trained.value), trained.value)))
    else Reset(c)
  }

  /** Trains on everything collected and leaves the placement evaluating or cooling down. */
  method TrainCandidate(c: Config, z: Zstd, s: Placement) returns (next: Placement)
    requires ValidConfig(c) && s.candidate.None? && s.holdout == [] && s.cooldown == 0 && NoTotals(s)
    requires DataBytes(s.training) == c.trainingSampleBytes && forall t :: t in s.training ==> Consistent(t)
    ensures FullInput(c, Concatenated(s.training)) && next == Trained(c, z, Concatenated(s.training))
  {
    hide Consistent, Joined;
    var all := TrainingSample([], []);
    for i := 0 to |s.training|
      invariant all == Concatenated(s.training[..i])
    {
      all := Joined(all, s.training[i]);
      assert s.training[..i + 1][..i] == s.training[..i];
    }
    assert s.training[..|s.training|] == s.training;
    ConcatenatedAddsUp(s.training);
    var trained := if |all.sizes| >= MIN_TRAINING_PIECES then z.train(all.data, all.sizes, c.dictionaryBytes) else None;
    if trained.Some? && trained.value != [] {
      next := FRESH.(candidate := Some(Candidate(z.identify(trained.value), trained.value)));
    } else {
      next := Reset(c);
    }
  }

  // ----- Evaluating

  function Trial(baseline: Bytes, samples: seq<Bytes>): (r: seq<Compared>)
    ensures |r| == |samples|
  {
    seq(|samples|, i requires 0 <= i < |samples| => Compared(baseline, samples[i]))
  }

  lemma {:induction false} CostsAdd(z: Zstd, payload: Bytes, a: seq<Compared>, b: seq<Compared>)
    ensures BaselineCost(z, a + b) == BaselineCost(z, a) + BaselineCost(z, b)
    ensures CandidateCost(z, payload, a + b) == CandidateCost(z, payload, a) + CandidateCost(z, payload, b)
  {
    if b == [] {
      assert a + b == a;
    } else {
      CostsAdd(z, payload, a, b[..|b| - 1]);
      assert (a + b)[..|a + b| - 1] == a + b[..|b| - 1];
    }
  }

  /** Both compressors over the held-out samples; nothing when either refuses one. */
  method CompareHoldout(z: Zstd, baseline: Bytes, payload: Bytes, samples: seq<Bytes>)
    returns (r: Option<(u64, u64)>)
    ensures r.Some? <==> forall s :: s in samples ==> z.compress(baseline, s).Some? && z.compress(payload, s).Some?
    ensures r.Some? ==> r.value.0 == Saturate(BaselineCost(z, Trial(baseline, samples)))
    ensures r.Some? ==> r.value.1 == Saturate(CandidateCost(z, payload, Trial(baseline, samples)))
  {
    var baselineBytes: u64, candidateBytes: u64 := 0, 0;
    for i := 0 to |samples|
      invariant forall s :: s in samples[..i] ==> z.compress(baseline, s).Some? && z.compress(payload, s).Some?
      invariant baselineBytes == Saturate(BaselineCost(z, Trial(baseline, samples[..i])))
      invariant candidateBytes == Saturate(CandidateCost(z, payload, Trial(baseline, samples[..i])))
    {
      var sample := samples[i];
      assert sample in samples;
      var baselineFrame := z.compress(baseline, sample);
      if baselineFrame.None? { return None; }
      var candidateFrame := z.compress(payload, sample);
      if candidateFrame.None? { return None; }
      baselineBytes := Saturate(baselineBytes + Saturate(|baselineFrame.value|));
      candidateBytes := Saturate(candidateBytes + Saturate(|candidateFrame.value|));
      assert Trial(baseline, samples[..i + 1])[..i] == Trial(baseline, samples[..i]);
    }
    assert samples[..|samples|] == samples;
    return Some((baselineBytes, candidateBytes));
  }

  /** Both dictionaries load, every sample compresses, and the first one survives a round trip. */
  ghost predicate Comparable(z: Zstd, baseline: Bytes, payload: Bytes, samples: seq<Bytes>)
  {
    && z.accepts(baseline) && z.accepts(payload)
    && (forall s :: s in samples ==> z.compress(baseline, s).Some? && z.compress(payload, s).Some?)
    && (samples != [] ==>
         z.decompress(payload, z.compress(payload, samples[0]).value, |samples[0]|) == Some(samples[0]))
  }

  function BaselineOf(current: Option<(u128, Bytes)>): Bytes
  {
    if current.Some? then current.value.1 else []
  }

  /** The catalog as the learner finds it. */
  datatype View = View(snapshot: Snapshot, poisoned: bool) {
    function Assigned(placement: u64): Option<(u128, Bytes)>
    {
      if poisoned then None else DictionaryFor(snapshot, placement)
    }

    predicate Takes(candidate: Candidate)
    {
      candidate.payload != [] && !poisoned &&
      (candidate.id in snapshot.dictionaries ==> snapshot.dictionaries[candidate.id] == candidate.payload)
    }
  }

  /** The totals once the held-out samples have been counted in. */
  ghost function Counted(z: Zstd, s: Placement, trial: seq<Compared>): Placement
    requires s.candidate.Some?
  {
    s.(holdout := [], baselineBytes := Saturate(BaselineCost(z, trial)),
       candidateBytes := Saturate(CandidateCost(z, s.candidate.value.payload, trial)))
  }

  predicate Wins(c: Config, s: Placement)
    requires s.candidate.Some?
  {
    Admitted(c, s.baselineBytes, s.candidateBytes, Saturate(|s.candidate.value.payload|))
  }

  predicate GivesUp(c: Config, s: Placement)
  {
    s.candidateBytes >= s.baselineBytes || s.originalBytes >= c.retrainAfterBytes
  }

  /** The verdict on a full holdout batch: the next state, its trial, and whether it is published. */
  ghost function Judge(c: Config, z: Zstd, placement: u64, s: Placement, trial: seq<Compared>, view: View)
    : (Placement, seq<Compared>, bool)
    requires s.candidate.Some?
  {
    var candidate := s.candidate.value;
    var inUse := view.Assigned(placement);
    var baseline := BaselineOf(inUse);
    if (inUse.Some? && inUse.value.0 == candidate.id) || !Comparable(z, baseline, candidate.payload, s.holdout)
    then (Reset(c), [], false) else
    var longer := trial + Trial(baseline, s.holdout);
    var counted := Counted(z, s, longer);
    if Wins(c, counted) && view.Takes(candidate) then (Reset(c), [], true)
    else if GivesUp(c, counted) then (Reset(c), [], false)
    else (counted, longer, false)
  }

  /** One observation of one placement. */
  ghost function Next(c: Config, z: Zstd, s: Placement, trial: seq<Compared>, o: Observation, view: View)
    : (Placement, seq<Compared>, bool)
    requires s.trainingBytes < c.trainingSampleBytes
  {
    if s.cooldown > 0 then (s.(cooldown := Max(s.cooldown - o.originalBytes, 0)), trial, false)
    else if s.candidate.Some? then
      var held := Held(s, o);
      if |held.holdout| < c.holdoutBlocks then (held, trial, false) else Judge(c, z, o.placement, held, trial, view)
    else
      var collected := Collected(c, s, o);
      if collected.trainingBytes < c.trainingSampleBytes then (collected, trial, false)
      else (Trained(c, z, Concatenated(collected.training)), [], false)
  }

  function Held(s: Placement, o: Observation): Placement
  {
    s.(originalBytes := Saturate(s.originalBytes + o.originalBytes), holdout := s.holdout + [o.holdout])
  }

  function Collected(c: Config, s: Placement, o: Observation): Placement
    requires s.trainingBytes < c.trainingSampleBytes
  {
    var sample := Shortened(o.training, c.trainingSampleBytes - s.trainingBytes);
    s.(training := s.training + [sample], trainingBytes := s.trainingBytes + |sample.data|)
  }

  /** What an observation hands to dictionary training, if it completes the sample. */
  ghost function TrainingInput(c: Config, s: Placement, o: Observation): seq<TrainingSample>
    requires s.trainingBytes < c.trainingSampleBytes
  {
    if s.cooldown == 0 && s.candidate.None? && Collected(c, s, o).trainingBytes >= c.trainingSampleBytes
    then [Concatenated(Collected(c, s, o).training)] else []
  }

  /** What the sampling side guarantees of an observation. */
  ghost predicate Offered(c: Config, o: Observation)
  {
    Consistent(o.training) && |o.holdout| <= c.maxBlockSampleBytes
  }

  lemma {:induction false} CollectedAddsUp(c: Config, s: Placement, o: Observation)
    requires Collecting(c, s) && Offered(c, o)
    ensures var next := Collected(c, s, o);
            && next.trainingBytes == DataBytes(next.training) <= c.trainingSampleBytes
            && forall t :: t in next.training ==> Consistent(t)
  {
    hide Consistent;
    var limit := c.trainingSampleBytes - s.trainingBytes;
    ShortenedAddsUp(o.training, limit);
    assert (s.training + [Shortened(o.training, limit)])[..|s.training|] == s.training;
  }

  lemma {:induction false} TrainedPhase(c: Config, z: Zstd, input: TrainingSample)
    requires ValidConfig(c)
    ensures InPhase(c, z, Trained(c, z, input), [])
  {
  }

  lemma {:induction false} JudgeKeepsPhase(
      c: Config, z: Zstd, placement: u64, s: Placement, trial: seq<Compared>, view: View)
    requires ValidConfig(c) && s.candidate.Some? && s.training == [] && s.trainingBytes == 0 && s.cooldown == 0
    requires s.candidate.value.payload != [] && s.candidate.value.id == z.identify(s.candidate.value.payload)
    ensures var r := Judge(c, z, placement, s, trial, view); InPhase(c, z, r.0, r.1)
  {
    hide BaselineCost, CandidateCost, Comparable;
  }

  /** Every observation leaves a placement in one of the phases. */
  lemma {:induction false} NextKeepsPhase(
      c: Config, z: Zstd, s: Placement, trial: seq<Compared>, o: Observation, view: View)
    requires ValidConfig(c) && InPhase(c, z, s, trial) && Offered(c, o)
    ensures var r := Next(c, z, s, trial, o, view); InPhase(c, z, r.0, r.1)
  {
    hide Judge, Trained, BaselineCost, CandidateCost, Consistent;
    if s.cooldown > 0 {
      assert s.cooldown <= o.originalBytes ==> Collecting(c, s.(cooldown := 0)) by { NothingCollected(); }
    } else if s.candidate.Some? {
      if |s.holdout| + 1 >= c.holdoutBlocks { JudgeKeepsPhase(c, z, o.placement, Held(s, o), trial, view); }
    } else {
      CollectedAddsUp(c, s, o);
      TrainedPhase(c, z, Concatenated(Collected(c, s, o).training));
    }
  }

  lemma {:induction false} NothingCollected()
    ensures DataBytes([]) == 0
  {
  }

  /** A publication and the whole trial behind it. */
  datatype Publication = Publication(placement: u64, payload: Bytes, trial: seq<Compared>)

  ghost predicate Justified(c: Config, z: Zstd, p: Publication)
  {
    p.payload != [] && |p.trial| >= c.holdoutBlocks &&
    Saves(c, BaselineCost(z, p.trial), CandidateCost(z, p.payload, p.trial), |p.payload|)
  }

  /** Publishing is only ever decided on a trial that really saves the margins. */
  lemma {:induction false} JudgedPublicationsSave(
      c: Config, z: Zstd, placement: u64, s: Placement, trial: seq<Compared>, view: View)
    requires ValidConfig(c) && s.candidate.Some? && |s.holdout| >= c.holdoutBlocks
    requires Judge(c, z, placement, s, trial, view).2
    ensures Justified(c, z, Publication(placement, s.candidate.value.payload,
                                        trial + Trial(BaselineOf(view.Assigned(placement)), s.holdout)))
  {
    hide Admitted, Saves, BaselineCost, CandidateCost, Comparable, Reset;
    var longer := trial + Trial(BaselineOf(view.Assigned(placement)), s.holdout);
    var payload := s.candidate.value.payload;
    AdmittedSaves(c, BaselineCost(z, longer), CandidateCost(z, payload, longer), |payload|);
  }

  // ----- The learner

  lemma {:induction false} CountIn(z: Zstd, s: Placement, trial: seq<Compared>, more: seq<Compared>, b: u64, k: u64)
    requires s.candidate.Some?
    requires s.baselineBytes == Saturate(BaselineCost(z, trial))
    requires s.candidateBytes == Saturate(CandidateCost(z, s.candidate.value.payload, trial))
    requires b == Saturate(BaselineCost(z, more)) && k == Saturate(CandidateCost(z, s.candidate.value.payload, more))
    ensures s.(holdout := [], baselineBytes := Saturate(s.baselineBytes + b),
      candidateBytes := Saturate(s.candidateBytes + k))
            == Counted(z, s, trial + more)
  {
    hide BaselineCost, CandidateCost;
    CostsAdd(z, s.candidate.value.payload, trial, more);
  }

  /** Compares the candidate with what the placement uses now, if everything needed for that works. */
  method MeasureHoldout(z: Zstd, baseline: Bytes, payload: Bytes, samples: seq<Bytes>) returns (r: Option<(u64, u64)>)
    ensures r.Some? <==> Comparable(z, baseline, payload, samples)
    ensures r.Some? ==> r.value.0 == Saturate(BaselineCost(z, Trial(baseline, samples)))
    ensures r.Some? ==> r.value.1 == Saturate(CandidateCost(z, payload, Trial(baseline, samples)))
  {
    hide BaselineCost, CandidateCost;
    if !z.accepts(baseline) { return None; }
    if !z.accepts(payload) { return None; }
    r := CompareHoldout(z, baseline, payload, samples);
    if r.Some? && samples != [] {
      assert samples[0] in samples;
      var decoded := z.decompress(payload, z.compress(payload, samples[0]).value, |samples[0]|);
      if decoded != Some(samples[0]) { r := None; }
    }
  }

  method EvaluateCandidate(
      c: Config, z: Zstd, placement: u64, s: Placement, ghost trial: seq<Compared>, catalog: Catalog)
    returns (next: Placement, ghost longer: seq<Compared>, published: bool)
    requires catalog.Valid() && s.candidate.Some? && s.training == [] && s.trainingBytes == 0 && s.cooldown == 0
    requires s.baselineBytes == Saturate(BaselineCost(z, trial))
    requires s.candidateBytes == Saturate(CandidateCost(z, s.candidate.value.payload, trial))
    modifies catalog
    ensures catalog.Valid() && Extends(old(catalog.current), catalog.current) &&
      catalog.poisoned == old(catalog.poisoned)
    ensures (next, longer, published) ==
            Judge(c, z, placement, s, trial, View(old(catalog.current), old(catalog.poisoned)))
    ensures !published ==> catalog.current == old(catalog.current)
    ensures published ==>
      DictionaryFor(catalog.current, placement) == Some((s.candidate.value.id, s.candidate.value.payload))
    ensures forall p :: p != placement ==> DictionaryFor(catalog.current, p) == DictionaryFor(old(catalog.current), p)
  {
    hide BaselineCost, CandidateCost, Comparable, Admitted, Trial, Resolves;
    var candidate := s.candidate.value;
    var inUse := if catalog.poisoned then None else DictionaryFor(catalog.current, placement);
    if inUse.Some? && inUse.value.0 == candidate.id {
      return Reset(c), [], false;
    }
    var baseline := BaselineOf(inUse);
    var measured := MeasureHoldout(z, baseline, candidate.payload, s.holdout);
    if measured.None? {
      return Reset(c), [], false;
    }
    CountIn(z, s, trial, Trial(baseline, s.holdout), measured.value.0, measured.value.1);
    var counted := s.(holdout := [], baselineBytes := Saturate(s.baselineBytes + measured.value.0),
                      candidateBytes := Saturate(s.candidateBytes + measured.value.1));
    longer := trial + Trial(baseline, s.holdout);
    if Wins(c, counted) {
      var publication := catalog.Publish(placement, candidate.id, candidate.payload);
      if publication.Ok? { return Reset(c), [], true; }
    }
    if GivesUp(c, counted) {
      return Reset(c), [], false;
    }
    return counted, longer, false;
  }

  /** One observation of one placement, and what it handed to training or to the catalog. */
  method AdvancePlacement(
      c: Config, z: Zstd, s: Placement, ghost trial: seq<Compared>, o: Observation, catalog: Catalog)
    returns (next: Placement, ghost longer: seq<Compared>, published: bool, trained: bool,
             ghost input: seq<TrainingSample>, ghost publication: Publication)
    requires ValidConfig(c) && catalog.Valid() && InPhase(c, z, s, trial) && Offered(c, o)
    modifies catalog
    ensures catalog.Valid() && Extends(old(catalog.current), catalog.current)
    ensures (next, longer, published) == Next(c, z, s, trial, o, View(old(catalog.current), old(catalog.poisoned)))
    ensures input == TrainingInput(c, s, o) && AllFull(c, input) && (trained <==> input != [])
    ensures !published ==> catalog.current == old(catalog.current)
    ensures published ==> Justified(c, z, publication) && publication.placement == o.placement
    ensures published ==> s.candidate == Some(Candidate(z.identify(publication.payload), publication.payload))
    ensures published ==>
      DictionaryFor(catalog.current, o.placement) == Some((z.identify(publication.payload), publication.payload))
    ensures forall p :: p != o.placement ==> DictionaryFor(catalog.current, p) == DictionaryFor(old(catalog.current), p)
  {
    hide BaselineCost, CandidateCost, Consistent, Trained, Judge, Justified, Resolves, DictionaryFor, Extends,
      Catalog.Valid;
    ExtendsItself(catalog.current);
    input := [];
    longer, published, trained := trial, false, false;
    publication := Publication(o.placement, [], []);
    if s.cooldown > 0 {
      next := s.(cooldown := Max(s.cooldown - o.originalBytes, 0));
      return;
    }
    if s.candidate.Some? {
      next := Held(s, o);
      if |next.holdout| >= c.holdoutBlocks {
        ghost var view := View(catalog.current, catalog.poisoned);
        ghost var held := next;
        next, longer, published := EvaluateCandidate(c, z, o.placement, next, trial, catalog);
        if published {
          JudgedPublicationsSave(c, z, o.placement, held, trial, view);
          publication := Publication(o.placement, s.candidate.value.payload,
                                     trial + Trial(BaselineOf(view.Assigned(o.placement)), held.holdout));
        }
      }
      return;
    }
    CollectedAddsUp(c, s, o);
    var sample := TruncateTrainingSample(o.training, c.trainingSampleBytes - s.trainingBytes);
    next := s.(training := s.training + [sample], trainingBytes := s.trainingBytes + |sample.data|);
    if next.trainingBytes >= c.trainingSampleBytes {
      input, longer := [Concatenated(next.training)], [];
      next := TrainCandidate(c, z, next);
      trained := true;
    }
  }

  ghost predicate AllInPhase(c: Config, z: Zstd, placements: map<u64, Placement>, trials: map<u64, seq<Compared>>)
    requires trials.Keys == placements.Keys
  {
    forall p :: p in placements ==> InPhase(c, z, placements[p], trials[p])
  }

  ghost predicate AllFull(c: Config, inputs: seq<TrainingSample>)
  {
    forall input :: input in inputs ==> FullInput(c, input)
  }

  ghost predicate AllJustified(c: Config, z: Zstd, publications: seq<Publication>)
  {
    forall p :: p in publications ==> Justified(c, z, p)
  }

  /** A placement's state and trial, fresh ones when it is not tracked yet. */
  ghost function Tracked(
      placements: map<u64, Placement>, trials: map<u64, seq<Compared>>, p: u64): (Placement, seq<Compared>)
    requires trials.Keys == placements.Keys
  {
    if p in placements then (placements[p], trials[p]) else (FRESH, [])
  }

  lemma {:induction false} TrackedInPhase(
      c: Config, z: Zstd, placements: map<u64, Placement>, trials: map<u64, seq<Compared>>, p: u64)
    requires ValidConfig(c) && trials.Keys == placements.Keys && AllInPhase(c, z, placements, trials)
    ensures var t := Tracked(placements, trials, p);
            InPhase(c, z, t.0, t.1) && t.0.trainingBytes < c.trainingSampleBytes
  {
  }

  lemma {:induction false} TrackOne(
      c: Config, z: Zstd, placements: map<u64, Placement>, trials: map<u64, seq<Compared>>,
      p: u64, s: Placement, trial: seq<Compared>)
    requires trials.Keys == placements.Keys && AllInPhase(c, z, placements, trials) && InPhase(c, z, s, trial)
    ensures trials[p := trial].Keys == placements[p := s].Keys
    ensures AllInPhase(c, z, placements[p := s], trials[p := trial])
    ensures |placements[p := s]| == |placements| + if p in placements then 0 else 1
  {
    hide InPhase;
    OneMorePlacement(placements, p, s);
  }

  // ----- Activity counters

  /** The exported counters; they wrap, except the high-water mark. */
  datatype Stats = Stats(
    budgetRejections: u64, maxTracked: u64, trainingRuns: u64, trainingFailures: u64,
    candidatesRejected: u64, published: u64)

  /** The same counts without a limit. */
  datatype Tally = Tally(refused: nat, runs: nat, failures: nat, rejected: nat, published: nat)

  /** What one observation did: trained, failed to, dropped a candidate or published it. */
  datatype Step = Step(trained: bool, failed: bool, dropped: bool, published: bool)

  function StepOf(s: Placement, next: Placement, trained: bool, published: bool): Step
  {
    Step(trained, trained && next.candidate.None?, s.candidate.Some? && next.candidate.None? && !published, published)
  }

  function Bump(x: u64, event: bool): u64 { if event then (x + 1) % TWO_64 else x }

  function Recorded(stats: Stats, step: Step, tracked: nat): Stats
    requires tracked <= U64_MAX
  {
    stats.(maxTracked := Max(stats.maxTracked, tracked), trainingRuns := Bump(stats.trainingRuns, step.trained),
           trainingFailures := Bump(stats.trainingFailures, step.failed),
           candidatesRejected := Bump(stats.candidatesRejected, step.dropped),
           published := Bump(stats.published, step.published))
  }

  function Tallied(t: Tally, step: Step): Tally
  {
    t.(runs := t.runs + (if step.trained then 1 else 0), failures := t.failures + (if step.failed then 1 else 0),
       rejected := t.rejected + (if step.dropped then 1 else 0),
       published := t.published + (if step.published then 1 else 0))
  }

  /** The placements with a candidate on trial. */
  function Pending(placements: map<u64, Placement>): set<u64>
  {
    set p | p in placements && placements[p].candidate.Some?
  }

  /**
    The books: every training run failed, was rejected, was published or is
    still on trial; the counters are these numbers modulo 2^64; and since
    placements are never forgotten, the high-water mark is how many there are.
   */
  ghost predicate Accounted(stats: Stats, t: Tally, placements: map<u64, Placement>, inputs: nat, publications: nat)
  {
    && t.runs == inputs && t.published == publications
    && t.runs == t.failures + t.rejected + t.published + |Pending(placements)|
    && Shows(stats, t) && stats.maxTracked == |placements|
  }

  predicate Shows(stats: Stats, t: Tally)
  {
    && stats.budgetRejections == t.refused % TWO_64 && stats.trainingRuns == t.runs % TWO_64
    && stats.trainingFailures == t.failures % TWO_64 && stats.candidatesRejected == t.rejected % TWO_64
    && stats.published == t.published % TWO_64
  }

  lemma {:induction false} ShowsStep(stats: Stats, t: Tally, step: Step, tracked: nat)
    requires Shows(stats, t) && tracked <= U64_MAX
    ensures Shows(Recorded(stats, step, tracked), Tallied(t, step))
    ensures Recorded(stats, step, tracked).maxTracked == Max(stats.maxTracked, tracked)
  {
    hide Bump;
    BumpCounts(t.runs, step.trained); BumpCounts(t.failures, step.failed);
    BumpCounts(t.rejected, step.dropped); BumpCounts(t.published, step.published);
  }

  lemma {:induction false} PendingStep(placements: map<u64, Placement>, p: u64, next: Placement)
    ensures |Pending(placements[p := next])| + (if p in placements && placements[p].candidate.Some? then 1 else 0) ==
            |Pending(placements)| + if next.candidate.Some? then 1 else 0
  {
    PendingSets(placements, p, next);
    hide Pending;
    var rest := Pending(placements) - {p};
    assert |rest + {p}| == |rest| + 1;
  }

  lemma {:induction false} PendingSets(placements: map<u64, Placement>, p: u64, next: Placement)
    ensures var rest := Pending(placements) - {p};
            && Pending(placements[p := next]) == (if next.candidate.Some? then rest + {p} else rest)
            && Pending(placements) == if p in placements && placements[p].candidate.Some? then rest + {p} else rest
  {
  }

  /** Candidates only appear by training and only leave by a verdict. */
  lemma {:induction false} CandidatesComeAndGo(
      c: Config, z: Zstd, s: Placement, trial: seq<Compared>, o: Observation, view: View)
    requires s.trainingBytes < c.trainingSampleBytes
    ensures var r, trained := Next(c, z, s, trial, o, view), TrainingInput(c, s, o) != [];
            && (trained ==> s.candidate.None?) && (r.2 ==> s.candidate.Some? && r.0.candidate.None?)
            && (s.candidate.None? && !trained ==> r.0.candidate.None?)
            && |TrainingInput(c, s, o)| <= 1
  {
    hide Concatenated, Shortened, Comparable, Admitted, BaselineCost, CandidateCost, GivesUp, Trained;
  }

  lemma {:induction false} BalanceStep(
      t: Tally, before: nat, after: nat, s: Placement, next: Placement, trained: bool, published: bool)
    requires t.runs == t.failures + t.rejected + t.published + before
    requires after + (if s.candidate.Some? then 1 else 0) == before + if next.candidate.Some? then 1 else 0
    requires (trained ==> s.candidate.None?) && (published ==> s.candidate.Some? && next.candidate.None?)
    requires s.candidate.None? && !trained ==> next.candidate.None?
    ensures var u := Tallied(t, StepOf(s, next, trained, published));
            && u.runs == t.runs + (if trained then 1 else 0)
            && u.published == t.published + (if published then 1 else 0)
            && u.runs == u.failures + u.rejected + u.published + after
  {
  }

  lemma {:induction false} AccountStep(
      stats: Stats, t: Tally, before: map<u64, Placement>, after: map<u64, Placement>, inputs: nat, publications: nat,
      s: Placement, next: Placement, trained: bool, published: bool)
    requires Accounted(stats, t, before, inputs, publications) && |before| <= |after| <= U64_MAX
    requires |Pending(after)| + (if s.candidate.Some? then 1 else 0) ==
             |Pending(before)| + if next.candidate.Some? then 1 else 0
    requires (trained ==> s.candidate.None?) && (published ==> s.candidate.Some? && next.candidate.None?)
    requires s.candidate.None? && !trained ==> next.candidate.None?
    ensures var step := StepOf(s, next, trained, published);
            Accounted(Recorded(stats, step, |after|), Tallied(t, step), after,
                      inputs + (if trained then 1 else 0), publications + if published then 1 else 0)
  {
    hide Pending, Shows, Recorded, Bump, Tallied, StepOf;
    BalanceStep(t, |Pending(before)|, |Pending(after)|, s, next, trained, published);
    ShowsStep(stats, t, StepOf(s, next, trained, published), |after|);
  }

  lemma {:induction false} BumpCounts(n: nat, event: bool)
    ensures Bump(n % TWO_64, event) == (n + if event then 1 else 0) % TWO_64
  {
  }

  lemma {:induction false} AccountRefusal(
      stats: Stats, t: Tally, placements: map<u64, Placement>, inputs: nat, publications: nat)
    requires Accounted(stats, t, placements, inputs, publications)
    ensures Accounted(stats.(budgetRejections := Bump(stats.budgetRejections, true)), t.(refused := t.refused + 1),
                      placements, inputs, publications)
  {
    hide Pending;
    BumpCounts(t.refused, true);
  }

  /** What holds of the placements, the training inputs and the publications between observations. */
  ghost predicate Learned(
      c: Config, z: Zstd, placements: map<u64, Placement>, trials: map<u64, seq<Compared>>,
      inputs: seq<TrainingSample>, publications: seq<Publication>)
  {
    && |placements| <= c.maxPlacements && trials.Keys == placements.Keys
    && AllInPhase(c, z, placements, trials)
    && AllFull(c, inputs) && AllJustified(c, z, publications)
  }

  lemma {:induction false} LearnedStep(
      c: Config, z: Zstd, placements: map<u64, Placement>, trials: map<u64, seq<Compared>>,
      inputs: seq<TrainingSample>, publications: seq<Publication>,
      p: u64, next: Placement, longer: seq<Compared>, input: seq<TrainingSample>, more: seq<Publication>)
    requires Learned(c, z, placements, trials, inputs, publications)
    requires (p in placements || |placements| < c.maxPlacements) && InPhase(c, z, next, longer)
    requires AllFull(c, input) && AllJustified(c, z, more)
    ensures Learned(c, z, placements[p := next], trials[p := longer], inputs + input, publications + more)
    ensures |placements[p := next]| == |placements| + (if p in placements then 0 else 1) <= c.maxPlacements
  {
    hide InPhase, AllFull, AllJustified, AllInPhase;
    TrackOne(c, z, placements, trials, p, next, longer);
    AllFullTogether(c, inputs, input);
    AllJustifiedTogether(c, z, publications, more);
  }

  class Trainer {
    const config: Config
    const zstd: Zstd
    const catalog: Catalog
    var placements: map<u64, Placement>
    var stats: Stats
    ghost var tally: Tally
    /** Every observation processed, in order. */
    ghost var seen: seq<Observation>
    /** What each placement's candidate has been compared on so far. */
    ghost var trials: map<u64, seq<Compared>>
    /** Every input ever handed to dictionary training. */
    ghost var inputs: seq<TrainingSample>
    /** Every dictionary this learner ever published. */
    ghost var publications: seq<Publication>

    ghost predicate Valid()
      reads this, catalog
    {
      && ValidConfig(config) && catalog.Valid()
      && Learned(config, zstd, placements, trials, inputs, publications)
      && Accounted(stats, tally, placements, |inputs|, |publications|)
    }

    constructor (config: Config, zstd: Zstd, catalog: Catalog)
      requires ValidConfig(config) && catalog.Valid()
      ensures Valid() && this.config == config && this.zstd == zstd && this.catalog == catalog
      ensures placements == map[] && inputs == [] && publications == []
      ensures stats == Stats(0, 0, 0, 0, 0, 0) && tally == Tally(0, 0, 0, 0, 0)
    {
      this.config, this.zstd, this.catalog := config, zstd, catalog;
      placements, trials, inputs, publications := map[], map[], [], [];
      stats, tally, seen := Stats(0, 0, 0, 0, 0, 0), Tally(0, 0, 0, 0, 0), [];
    }

    /** What an observation does to the one placement it names. */
    ghost function Expected(o: Observation): (Placement, seq<Compared>, bool)
      requires Valid()
      reads this, catalog
    {
      var (s, trial) := Tracked(placements, trials, o.placement);
      TrackedInPhase(config, zstd, placements, trials, o.placement);
      Next(config, zstd, s, trial, o, View(catalog.current, catalog.poisoned))
    }

    ghost function Training(o: Observation): seq<TrainingSample>
      requires Valid()
      reads this, catalog
    {
      TrackedInPhase(config, zstd, placements, trials, o.placement);
      TrainingInput(config, Tracked(placements, trials, o.placement).0, o)
    }

    /** What an observation does to the books. */
    ghost function Event(o: Observation): Step
      requires Valid()
      reads this, catalog
    {
      StepOf(Tracked(placements, trials, o.placement).0, Expected(o).0, Training(o) != [], Expected(o).2)
    }

    ghost predicate Refuses(o: Observation)
      reads this
    {
      o.placement !in placements && |placements| >= config.maxPlacements
    }

    method ProcessObservation(o: Observation)
      requires Valid() && Offered(config, o)
      modifies this, catalog
      ensures Valid() && seen == old(seen) + [o]
      ensures old(Refuses(o)) ==> placements == old(placements) && trials == old(trials)
      ensures !old(Refuses(o)) ==>
        && placements == old(placements)[o.placement := old(Expected(o)).0]
        && trials == old(trials)[o.placement := old(Expected(o)).1]
      ensures tally ==
        if old(Refuses(o)) then old(tally.(refused := tally.refused + 1)) else Tallied(old(tally), old(Event(o)))
      ensures inputs == old(inputs) + if old(Refuses(o)) then [] else old(Training(o))
      ensures old(publications) <= publications
      ensures |publications| == |old(publications)| + if !old(Refuses(o)) && old(Expected(o)).2 then 1 else 0
      ensures |publications| == |old(publications)| ==> catalog.current == old(catalog.current)
      ensures |publications| > |old(publications)| ==>
        var p := publications[|publications| - 1];
        && p.placement == o.placement
        && Some((zstd.identify(p.payload), p.payload)) == DictionaryFor(catalog.current, o.placement)
        && o.placement in old(placements)
        && old(placements)[o.placement].candidate == Some(Candidate(zstd.identify(p.payload), p.payload))
      ensures Extends(old(catalog.current), catalog.current)
      ensures forall p :: p != o.placement ==>
        DictionaryFor(catalog.current, p) == DictionaryFor(old(catalog.current), p)
    {
      hide InPhase, Next, TrainingInput, Justified, FullInput, Offered, ValidConfig, Resolves, AllFull, AllJustified,
        AllInPhase, DictionaryFor, Extends, Accounted, StepOf, Recorded, Tallied, Bump, Tracked;
      ExtendsItself(catalog.current);
      seen := seen + [o];
      if o.placement !in placements && |placements| >= config.maxPlacements {
        AccountRefusal(stats, tally, placements, |inputs|, |publications|);
        stats := stats.(budgetRejections := Bump(stats.budgetRejections, true));
        tally := tally.(refused := tally.refused + 1);
        return;
      }
      ObserveTracked(o);
    }

    /** An observation that is not refused. */
    method ObserveTracked(o: Observation)
      requires Valid() && Offered(config, o) && !Refuses(o)
      modifies this, catalog
      ensures Valid() && seen == old(seen)
      ensures placements == old(placements)[o.placement := old(Expected(o)).0]
      ensures trials == old(trials)[o.placement := old(Expected(o)).1]
      ensures tally == Tallied(old(tally), old(Event(o))) && inputs == old(inputs) + old(Training(o))
      ensures old(publications) <= publications
      ensures |publications| == |old(publications)| + if old(Expected(o)).2 then 1 else 0
      ensures |publications| == |old(publications)| ==> catalog.current == old(catalog.current)
      ensures |publications| > |old(publications)| ==>
        var p := publications[|publications| - 1];
        && p.placement == o.placement
        && Some((zstd.identify(p.payload), p.payload)) == DictionaryFor(catalog.current, o.placement)
        && o.placement in old(placements)
        && old(placements)[o.placement].candidate == Some(Candidate(zstd.identify(p.payload), p.payload))
      ensures Extends(old(catalog.current), catalog.current)
      ensures forall p :: p != o.placement ==>
        DictionaryFor(catalog.current, p) == DictionaryFor(old(catalog.current), p)
    {
      hide InPhase, Next, TrainingInput, Justified, FullInput, Offered, ValidConfig, Resolves, AllFull, AllJustified,
        AllInPhase, DictionaryFor, Extends, Accounted, StepOf, Tallied;
      var s := if o.placement in placements then placements[o.placement] else FRESH;
      ghost var trial := Tracked(placements, trials, o.placement).1;
      TrackedInPhase(config, zstd, placements, trials, o.placement);
      NextKeepsPhase(config, zstd, s, trial, o, View(catalog.current, catalog.poisoned));
      CandidatesComeAndGo(config, zstd, s, trial, o, View(catalog.current, catalog.poisoned));
      var next, longer, published, trained, input, publication := AdvancePlacement(config, zstd, s, trial, o, catalog);
      Store(o.placement, s, next, longer, published, trained, input, publication);
    }

    /** Puts a placement's new state in place and brings the books up to date. */
    method Store(p: u64, s: Placement, next: Placement, ghost longer: seq<Compared>, published: bool, trained: bool,
                 ghost input: seq<TrainingSample>, ghost publication: Publication)
      requires Valid() && (p in placements || |placements| < config.maxPlacements)
      requires s == (if p in placements then placements[p] else FRESH) && InPhase(config, zstd, next, longer)
      requires (trained ==> s.candidate.None?) && (published ==> s.candidate.Some? && next.candidate.None?)
      requires s.candidate.None? && !trained ==> next.candidate.None?
      requires AllFull(config, input) && |input| == (if trained then 1 else 0)
      requires published ==> Justified(config, zstd, publication)
      modifies this
      ensures Valid() && seen == old(seen)
      ensures placements == old(placements)[p := next] && trials == old(trials)[p := longer]
      ensures tally == Tallied(old(tally), StepOf(s, next, trained, published))
      ensures inputs == old(inputs) + input
      ensures publications == old(publications) + if published then [publication] else []
    {
      hide InPhase, ValidConfig, Resolves, AllFull, AllInPhase, Accounted, StepOf, Recorded, Tallied, Pending,
        Catalog.Valid, Learned;
      ghost var more := if published then [publication] else [];
      assert AllJustified(config, zstd, more) by { hide Justified; }
      hide AllJustified;
      LearnedStep(config, zstd, placements, trials, inputs, publications, p, next, longer, input, more);
      PendingStep(placements, p, next);
      AccountStep(
        stats, tally, placements, placements[p := next], |inputs|, |publications|, s, next, trained, published);
      var tracked := |placements| + if p in placements then 0 else 1;
      stats := Recorded(stats, StepOf(s, next, trained, published), tracked);
      tally := Tallied(tally, StepOf(s, next, trained, published));
      placements, trials := placements[p := next], trials[p := longer];
      inputs, publications := inputs + input, publications + more;
    }
  }

  lemma {:induction false} ExtendsItself(s: Snapshot)
    ensures Extends(s, s)
  {
  }

  lemma {:induction false} AllFullTogether(c: Config, a: seq<TrainingSample>, b: seq<TrainingSample>)
    requires AllFull(c, a) && AllFull(c, b)
    ensures AllFull(c, a + b)
  {
    hide FullInput;
  }

  lemma {:induction false} AllJustifiedTogether(c: Config, z: Zstd, a: seq<Publication>, b: seq<Publication>)
    requires AllJustified(c, z, a) && AllJustified(c, z, b)
    ensures AllJustified(c, z, a + b)
  {
    hide Justified;
  }

  lemma {:induction false} OneMorePlacement(m: map<u64, Placement>, p: u64, s: Placement)
    ensures |m[p := s]| == |m| + if p in m then 0 else 1
    ensures m[p := s].Keys == m.Keys + {p}
  {
    assert m[p := s].Keys == m.Keys + {p};
    assert |m[p := s]| == |m[p := s].Keys| && |m| == |m.Keys|;
  }

  /** Starts a learner over a catalog, unless the configuration or the compression level is rejected. */
  method StartTrainer(config: Config, level: i32, zstd: Zstd, catalog: Catalog)
    returns (r: Result<Trainer, ConfigError>)
    requires catalog.Valid()
    ensures r.Ok? <==> ValidConfig(config) && zstd.lowestLevel <= level <= zstd.highestLevel
    ensures r == Err(CompressionLevel) <==> ValidConfig(config) && !(zstd.lowestLevel <= level <= zstd.highestLevel)
    ensures r.Ok? ==> fresh(r.value) && r.value.Valid() && r.value.config == config && r.value.catalog == catalog
    ensures r.Ok? ==> r.value.placements == map[] && r.value.inputs == [] && r.value.publications == []
  {
    var fault := ValidateConfig(config);
    if fault.Some? { return Err(fault.value); }
    if level < zstd.lowestLevel || level > zstd.highestLevel { return Err(CompressionLevel); }
    var trainer := new Trainer(config, zstd, catalog);
    return Ok(trainer);
  }

  // ----- The worker

  datatype Command = Observe(observation: Observation) | Flush | Shutdown

  /** The observations a worker handles: those before the first shutdown. */
  function Handled(commands: seq<Command>): seq<Observation>
  {
    if commands == [] || commands[0].Shutdown? then []
    else (if commands[0].Observe? then [commands[0].observation] else []) + Handled(commands[1..])
  }

  /** For each flush before the first shutdown, how many observations were submitted before it. */
  function SubmittedBefore(commands: seq<Command>, n: nat): seq<nat>
  {
    if commands == [] || commands[0].Shutdown? then []
    else if commands[0].Flush? then [n] + SubmittedBefore(commands[1..], n)
    else SubmittedBefore(commands[1..], n + 1)
  }

  /**
    The worker loop: any number of commands keeps every guarantee, dictionary
    ids never change meaning, and a flush is answered exactly when everything
    submitted before it has been processed.
   */
  method RunTrainer(trainer: Trainer, commands: seq<Command>) returns (answered: seq<nat>)
    requires trainer.Valid() && forall o :: o in Handled(commands) ==> Offered(trainer.config, o)
    modifies trainer, trainer.catalog
    ensures trainer.Valid() && old(trainer.publications) <= trainer.publications &&
      old(trainer.inputs) <= trainer.inputs
    ensures trainer.seen == old(trainer.seen) + Handled(commands)
    ensures answered == SubmittedBefore(commands, 0)
    ensures Extends(old(trainer.catalog.current), trainer.catalog.current)
    ensures |trainer.publications| == |old(trainer.publications)| ==>
              trainer.catalog.current == old(trainer.catalog.current)
  {
    hide Offered, Handled, SubmittedBefore, Next, InPhase, Accounted, Extends, DictionaryFor, AllInPhase, AllFull,
      AllJustified;
    answered := [];
    var processed := 0;
    ghost var left := commands;
    ExtendsItself(trainer.catalog.current);
    Outset(trainer.seen, commands);
    for i := 0 to |commands|
      invariant left == commands[i..] && forall o :: o in Handled(left) ==> Offered(trainer.config, o)
      invariant trainer.Valid() && old(trainer.publications) <= trainer.publications &&
        old(trainer.inputs) <= trainer.inputs
      invariant Midway(old(trainer.seen), trainer.seen, answered, processed, commands, left)
      invariant Extends(old(trainer.catalog.current), trainer.catalog.current)
      invariant |trainer.publications| == |old(trainer.publications)| ==>
                  trainer.catalog.current == old(trainer.catalog.current)
    {
      CommandStep(old(trainer.seen), trainer.seen, answered, processed, commands, left);
      if commands[i].Shutdown? { break; }
      if commands[i].Observe? {
        ghost var before := trainer.catalog.current;
        trainer.ProcessObservation(commands[i].observation);
        ExtendsFurther(old(trainer.catalog.current), before, trainer.catalog.current);
        processed := processed + 1;
      } else {
        answered := answered + [processed];
      }
      left := left[1..];
    }
    Finished(old(trainer.seen), trainer.seen, answered, processed, commands, left);
  }

  /** Part of the commands done: what was seen and answered, and what `left` will add, make up the whole. */
  ghost predicate Midway(start: seq<Observation>, seen: seq<Observation>, answered: seq<nat>, processed: nat,
                         commands: seq<Command>, left: seq<Command>)
  {
    && seen + Handled(left) == start + Handled(commands)
    && answered + SubmittedBefore(left, processed) == SubmittedBefore(commands, 0)
  }

  lemma {:induction false} Outset(start: seq<Observation>, commands: seq<Command>)
    ensures Midway(start, start, [], 0, commands, commands)
  {
    hide Handled, SubmittedBefore;
    assert [] + SubmittedBefore(commands, 0) == SubmittedBefore(commands, 0);
  }

  lemma {:induction false} CommandStep(
      start: seq<Observation>, seen: seq<Observation>, answered: seq<nat>, processed: nat,
      commands: seq<Command>, left: seq<Command>)
    requires left != [] && Midway(start, seen, answered, processed, commands, left)
    ensures left[0].Observe? ==>
              Midway(start, seen + [left[0].observation], answered, processed + 1, commands, left[1..])
              && left[0].observation in Handled(left)
    ensures left[0].Flush? ==> Midway(start, seen, answered + [processed], processed, commands, left[1..])
    ensures !left[0].Shutdown? ==> forall o :: o in Handled(left[1..]) ==> o in Handled(left)
  {
    var rest := Handled(left[1..]);
    if left[0].Observe? {
      var o := left[0].observation;
      assert Handled(left) == [o] + rest;
      assert seen + ([o] + rest) == (seen + [o]) + rest;
    } else if left[0].Flush? {
      assert Handled(left) == [] + rest == rest;
      var more := SubmittedBefore(left[1..], processed);
      assert answered + ([processed] + more) == (answered + [processed]) + more;
    }
  }

  lemma {:induction false} Finished(start: seq<Observation>, seen: seq<Observation>, answered: seq<nat>, processed: nat,
                                    commands: seq<Command>, left: seq<Command>)
    requires Midway(start, seen, answered, processed, commands, left) && (left == [] || left[0].Shutdown?)
    ensures seen == start + Handled(commands) && answered == SubmittedBefore(commands, 0)
  {
    assert Handled(left) == [] && SubmittedBefore(left, processed) == [];
    assert seen + [] == seen && answered + [] == answered;
  }

  lemma {:induction false} ExtendsFurther(a: Snapshot, b: Snapshot, c: Snapshot)
    requires Extends(a, b) && Extends(b, c)
    ensures Extends(a, c)
  {
  }
}
