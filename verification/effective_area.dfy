/**
 * The effective-area event loop (`calculate` in marmots/effective_area.py).
 *
 * Everything physical comes from collaborators outside this model and enters
 * as data: the trial batch with its area and dot weights, the exit
 * probabilities (None where no tau exits, numpy's masked entries), and per
 * station the view angle, the summed voltage, the elevation and distance of
 * each decay point and the horizon distance and angle. What is modelled is
 * the trigger matrix, its reduction to per-trial detections and the four
 * normalised coefficients.
 */
module EffectiveArea {
  import opened Wrappers

  /** The trial batch and, per trial, the exit probability looked up for its emergence angle. */
  datatype TrialBatch = TrialBatch(
    emergence: seq<real>,
    area: real,
    dot: seq<real>,
    pexit: seq<Option<real>>)

  /** The per-trial arrays all have the batch's length. */
  predicate Aligned(batch: TrialBatch) {
    |batch.dot| == |batch.emergence| && |batch.pexit| == |batch.emergence|
  }

  /**
   * What one station sees of every trial: the ground view angle, the voltage
   * summed over frequency channels, the elevation (pi/2 minus the zenith
   * angle) and distance of the decay point, and the station's horizon.
   */
  datatype StationView = StationView(
    groundView: seq<real>,
    voltageSum: seq<real>,
    elev: seq<real>,
    distanceToDecay: seq<real>,
    horizonDistance: real,
    horizonAngle: real)

  predicate WellShaped(v: StationView, n: nat) {
    |v.groundView| == n && |v.voltageSum| == n && |v.elev| == n && |v.distanceToDecay| == n
  }

  predicate AllWellShaped(views: seq<StationView>, n: nat) {
    forall i | 0 <= i < |views| :: WellShaped(views[i], n)
  }

  /** The maximum view angle, the noise floor and the SNR a trigger needs. */
  datatype Settings = Settings(maxview: real, vrms: real, triggerSNR: real)

  /**
   * The four coefficients [geometric, pexit, pdet, effective_area]. None marks
   * a mean or sum over entries that are all masked.
   */
  datatype Coefficients = Coefficients(geometric: real, pexit: Option<real>, pdet: real, effectiveArea: Option<real>)

  /** The result for an empty trial batch. */
  const EMPTY: Coefficients := Coefficients(0.0, Some(0.0), 0.0, Some(0.0))

  // ---------------------------------------------------------------------------
  // Per-station trigger decision
  // ---------------------------------------------------------------------------

  predicate InSight(v: StationView, j: nat, cfg: Settings)
    requires j < |v.groundView|
  {
    v.groundView[j] <= cfg.maxview
  }

  /** The trigger value for an in-sight trial: 1 iff its SNR strictly exceeds the threshold. */
  function Threshold(v: StationView, j: nat, cfg: Settings): real
    requires j < |v.voltageSum| && cfg.vrms > 0.0
  {
    if v.voltageSum[j] / cfg.vrms > cfg.triggerSNR then 1.0 else 0.0
  }

  /** Behind the visible horizon: farther than the horizon distance and below the horizon angle. */
  predicate Invisible(v: StationView, j: nat)
    requires j < |v.elev| && j < |v.distanceToDecay|
  {
    v.distanceToDecay[j] > v.horizonDistance && v.elev[j] < v.horizonAngle
  }

  /** Strictly above the station's local horizontal, where trials count as background. */
  predicate AboveHorizontal(v: StationView, j: nat)
    requires j < |v.elev|
  {
    v.elev[j] > 0.0
  }

  /** Trials the source's comments say can never trigger. */
  predicate Hidden(v: StationView, j: nat)
    requires j < |v.elev| && j < |v.distanceToDecay|
  {
    Invisible(v, j) || AboveHorizontal(v, j)
  }

  /** Entry (i, j) of the trigger matrix as the code computes it. */
  function Trigger(v: StationView, j: nat, cfg: Settings): real
    requires WellShaped(v, |v.groundView|) && j < |v.groundView| && cfg.vrms > 0.0
  {
    if InSight(v, j, cfg) then Threshold(v, j, cfg) else 0.0
  }

  /** Entry (i, j) of the trigger matrix with the horizon masks applied, as the comments intend. */
  function MaskedTrigger(v: StationView, j: nat, cfg: Settings): real
    requires WellShaped(v, |v.groundView|) && j < |v.groundView| && cfg.vrms > 0.0
  {
    if InSight(v, j, cfg) && !Hidden(v, j) then Threshold(v, j, cfg) else 0.0
  }

  /** Trial `j` is detected iff some station's trigger entry for it is positive. */
  function Detections(views: seq<StationView>, n: nat, cfg: Settings): (pdet: seq<bool>)
    requires AllWellShaped(views, n) && cfg.vrms > 0.0
    ensures |pdet| == n
  {
    seq(n, j requires 0 <= j < n =>
      exists i | 0 <= i < |views| :: Trigger(views[i], j, cfg) > 0.0)
  }

  /** Detections under the intended horizon masking. */
  function MaskedDetections(views: seq<StationView>, n: nat, cfg: Settings): (pdet: seq<bool>)
    requires AllWellShaped(views, n) && cfg.vrms > 0.0
    ensures |pdet| == n
  {
    seq(n, j requires 0 <= j < n =>
      exists i | 0 <= i < |views| :: MaskedTrigger(views[i], j, cfg) > 0.0)
  }

  // ---------------------------------------------------------------------------
  // Reductions
  // ---------------------------------------------------------------------------

  function Sum(s: seq<real>): real {
    if s == [] then 0.0 else s[0] + Sum(s[1..])
  }

  function CountTrue(s: seq<bool>): nat {
    if s == [] then 0 else (if s[0] then 1 else 0) + CountTrue(s[1..])
  }

  /** Sum of the unmasked entries (a masked array's sum). */
  function UnmaskedSum(p: seq<Option<real>>): real {
    if p == [] then 0.0 else (if p[0].Some? then p[0].value else 0.0) + UnmaskedSum(p[1..])
  }

  /** Number of unmasked entries. */
  function UnmaskedCount(p: seq<Option<real>>): nat {
    if p == [] then 0 else (if p[0].Some? then 1 else 0) + UnmaskedCount(p[1..])
  }

  /** Mean of the unmasked entries; None (masked) when every entry is masked. */
  function MaskedMean(p: seq<Option<real>>): Option<real> {
    if UnmaskedCount(p) == 0 then None
    else Some(UnmaskedSum(p) / UnmaskedCount(p) as real)
  }

  /** Fraction of true flags. */
  function Mean(flags: seq<bool>): real
    requires |flags| > 0
  {
    CountTrue(flags) as real / |flags| as real
  }

  /** The normalisation N * n_stations. */
  function Normaliser(n: nat, stations: nat): real {
    n as real * stations as real
  }

  /** area * sum(dot) / (N * n_stations). */
  function Geometric(area: real, dot: seq<real>, n: nat, stations: nat): real
    requires n >= 1 && stations >= 1
  {
    area * Sum(dot) / Normaliser(n, stations)
  }

  /** One term of area * dot * Pexit * Pdet: masked where the exit probability is masked. */
  function Weight(area: real, dot: real, pexit: Option<real>, detected: bool): Option<real> {
    match pexit
    case None => None
    case Some(p) => Some(area * dot * p * (if detected then 1.0 else 0.0))
  }

  function Weights(area: real, dot: seq<real>, pexit: seq<Option<real>>, pdet: seq<bool>): (w: seq<Option<real>>)
    requires |pexit| == |dot| && |pdet| == |dot|
    ensures |w| == |dot|
  {
    if dot == [] then []
    else [Weight(area, dot[0], pexit[0], pdet[0])] + Weights(area, dot[1..], pexit[1..], pdet[1..])
  }

  /** sum(area * dot * Pexit * Pdet) / (N * n_stations); None when every term is masked. */
  function EffectiveAreaOf(area: real, dot: seq<real>, pexit: seq<Option<real>>, pdet: seq<bool>, n: nat, stations: nat)
    : Option<real>
    requires |pexit| == |dot| && |pdet| == |dot|
    requires n >= 1 && stations >= 1
  {
    var w := Weights(area, dot, pexit, pdet);
    if UnmaskedCount(w) == 0 then None
    else Some(UnmaskedSum(w) / Normaliser(n, stations))
  }

  /** The four coefficients of a non-empty batch, given its detection flags. */
  function CoefficientsOf(batch: TrialBatch, pdet: seq<bool>, n: nat, stations: nat): Coefficients
    requires Aligned(batch) && |pdet| == |batch.emergence| > 0
    requires n >= 1 && stations >= 1
  {
    Coefficients(
      Geometric(batch.area, batch.dot, n, stations),
      MaskedMean(batch.pexit),
      Mean(pdet),
      EffectiveAreaOf(batch.area, batch.dot, batch.pexit, pdet, n, stations))
  }

  // ---------------------------------------------------------------------------
  // Properties of the reductions
  // ---------------------------------------------------------------------------

  lemma {:induction false} CountTrueAtMostLength(s: seq<bool>)
    ensures CountTrue(s) <= |s|
    ensures CountTrue(s) == |s| <==> forall k | 0 <= k < |s| :: s[k]
    ensures CountTrue(s) == 0 <==> forall k | 0 <= k < |s| :: !s[k]
  {
    if s != [] {
      CountTrueAtMostLength(s[1..]);
      assert forall k | 1 <= k < |s| :: s[k] == s[1..][k - 1];
    }
  }

  /** pdet is a fraction of trials: it lies in [0, 1], is 1 iff all are detected and 0 iff none is. */
  lemma DetectedFraction(flags: seq<bool>)
    requires |flags| > 0
    ensures 0.0 <= Mean(flags) <= 1.0
    ensures Mean(flags) == 1.0 <==> forall k | 0 <= k < |flags| :: flags[k]
    ensures Mean(flags) == 0.0 <==> forall k | 0 <= k < |flags| :: !flags[k]
  {
    CountTrueAtMostLength(flags);
    FractionBounds(CountTrue(flags) as real, |flags| as real);
  }

  predicate Probabilities(p: seq<Option<real>>) {
    forall k | 0 <= k < |p| :: p[k].Some? ==> 0.0 <= p[k].value <= 1.0
  }

  lemma {:induction false} UnmaskedSumBounds(p: seq<Option<real>>)
    requires Probabilities(p)
    ensures 0.0 <= UnmaskedSum(p) <= UnmaskedCount(p) as real
  {
    if p != [] {
      assert Probabilities(p[1..]) by {
        forall k | 0 <= k < |p[1..]| ensures p[1..][k].Some? ==> 0.0 <= p[1..][k].value <= 1.0 {
          assert p[1..][k] == p[k + 1];
        }
      }
      UnmaskedSumBounds(p[1..]);
    }
  }

  /** The mean of unmasked exit probabilities is itself a probability. */
  lemma ExitProbabilityMean(p: seq<Option<real>>)
    requires Probabilities(p)
    ensures MaskedMean(p).Some? ==> 0.0 <= MaskedMean(p).value <= 1.0
    ensures MaskedMean(p).None? <==> forall k | 0 <= k < |p| :: p[k].None?
  {
    UnmaskedSumBounds(p);
    UnmaskedCountZero(p);
    if UnmaskedCount(p) > 0 {
      FractionBounds(UnmaskedSum(p), UnmaskedCount(p) as real);
    }
  }

  lemma FractionBounds(a: real, c: real)
    requires 0.0 <= a <= c && c > 0.0
    ensures 0.0 <= a / c <= 1.0
    ensures a / c == 1.0 <==> a == c
    ensures a / c == 0.0 <==> a == 0.0
  {
    var q := a / c;
    assert q * c == a;
  }

  lemma {:induction false} UnmaskedCountZero(p: seq<Option<real>>)
    ensures UnmaskedCount(p) == 0 <==> forall k | 0 <= k < |p| :: p[k].None?
  {
    if p != [] {
      UnmaskedCountZero(p[1..]);
      assert forall k | 1 <= k < |p| :: p[k] == p[1..][k - 1];
    }
  }

  predicate NonNegative(s: seq<real>) {
    forall k | 0 <= k < |s| :: s[k] >= 0.0
  }

  lemma {:induction false} SumNonNegative(s: seq<real>)
    requires NonNegative(s)
    ensures Sum(s) >= 0.0
  {
    if s != [] {
      assert NonNegative(s[1..]) by {
        forall k | 0 <= k < |s[1..]| ensures s[1..][k] >= 0.0 {
          assert s[1..][k] == s[k + 1];
        }
      }
      SumNonNegative(s[1..]);
    }
  }

  lemma NormaliserPositive(n: nat, stations: nat)
    requires n >= 1 && stations >= 1
    ensures Normaliser(n, stations) >= 1.0
  {
    assert n as real * stations as real >= 1.0 * stations as real;
  }

  /** With a non-negative area and non-negative dot weights the geometric coefficient is non-negative. */
  lemma GeometricNonNegative(area: real, dot: seq<real>, n: nat, stations: nat)
    requires n >= 1 && stations >= 1
    requires area >= 0.0 && NonNegative(dot)
    ensures Geometric(area, dot, n, stations) >= 0.0
  {
    SumNonNegative(dot);
    NormaliserPositive(n, stations);
    var total := area * Sum(dot);
    assert total >= 0.0;
  }

  lemma {:induction false} UndetectedWeightsVanish(area: real, dot: seq<real>, pexit: seq<Option<real>>, pdet: seq<bool>)
    requires |pexit| == |dot| && |pdet| == |dot|
    requires forall k | 0 <= k < |pdet| :: !pdet[k]
    ensures UnmaskedSum(Weights(area, dot, pexit, pdet)) == 0.0
  {
    if dot != [] {
      assert forall k | 0 <= k < |pdet[1..]| :: !pdet[1..][k] by {
        forall k | 0 <= k < |pdet[1..]| ensures !pdet[1..][k] {
          assert pdet[1..][k] == pdet[k + 1];
        }
      }
      UndetectedWeightsVanish(area, dot[1..], pexit[1..], pdet[1..]);
      assert !pdet[0];
    }
  }

  /** When no trial is detected the effective area is 0 (or masked, if every exit probability is). */
  lemma EffectiveAreaUndetected(area: real, dot: seq<real>, pexit: seq<Option<real>>, pdet: seq<bool>, n: nat, stations: nat)
    requires |pexit| == |dot| && |pdet| == |dot|
    requires n >= 1 && stations >= 1
    requires forall k | 0 <= k < |pdet| :: !pdet[k]
    ensures EffectiveAreaOf(area, dot, pexit, pdet, n, stations) in {None, Some(0.0)}
  {
    UndetectedWeightsVanish(area, dot, pexit, pdet);
    NormaliserPositive(n, stations);
  }

  lemma {:induction false} FullWeightsSum(area: real, dot: seq<real>, pexit: seq<Option<real>>, pdet: seq<bool>)
    requires |pexit| == |dot| && |pdet| == |dot|
    requires forall k | 0 <= k < |dot| :: pexit[k] == Some(1.0) && pdet[k]
    ensures UnmaskedSum(Weights(area, dot, pexit, pdet)) == area * Sum(dot)
    ensures UnmaskedCount(Weights(area, dot, pexit, pdet)) == |dot|
  {
    if dot != [] {
      assert forall k | 0 <= k < |dot[1..]| :: pexit[1..][k] == Some(1.0) && pdet[1..][k] by {
        forall k | 0 <= k < |dot[1..]| ensures pexit[1..][k] == Some(1.0) && pdet[1..][k] {
          assert pexit[1..][k] == pexit[k + 1] && pdet[1..][k] == pdet[k + 1];
        }
      }
      FullWeightsSum(area, dot[1..], pexit[1..], pdet[1..]);
      assert pexit[0] == Some(1.0) && pdet[0];
      assert area * dot[0] + area * Sum(dot[1..]) == area * (dot[0] + Sum(dot[1..]));
    }
  }

  /**
   * When every trial exits with probability 1 and is detected, the effective
   * area equals the geometric coefficient.
   */
  lemma EffectiveAreaFullyDetected(area: real, dot: seq<real>, pexit: seq<Option<real>>, pdet: seq<bool>, n: nat, stations: nat)
    requires |pexit| == |dot| && |pdet| == |dot| && |dot| > 0
    requires n >= 1 && stations >= 1
    requires forall k | 0 <= k < |dot| :: pexit[k] == Some(1.0) && pdet[k]
    ensures EffectiveAreaOf(area, dot, pexit, pdet, n, stations) == Some(Geometric(area, dot, n, stations))
  {
    var w := Weights(area, dot, pexit, pdet);
    FullWeightsSum(area, dot, pexit, pdet);
    assert UnmaskedCount(w) > 0;
    assert EffectiveAreaOf(area, dot, pexit, pdet, n, stations) == Some(UnmaskedSum(w) / Normaliser(n, stations));
    assert UnmaskedSum(w) == area * Sum(dot);
    assert Geometric(area, dot, n, stations) == area * Sum(dot) / Normaliser(n, stations);
  }

  lemma {:induction false} WeightsNonNegative(area: real, dot: seq<real>, pexit: seq<Option<real>>, pdet: seq<bool>)
    requires |pexit| == |dot| && |pdet| == |dot|
    requires area >= 0.0 && NonNegative(dot) && Probabilities(pexit)
    ensures UnmaskedSum(Weights(area, dot, pexit, pdet)) >= 0.0
  {
    if dot != [] {
      assert NonNegative(dot[1..]) && Probabilities(pexit[1..]) by {
        forall k | 0 <= k < |dot[1..]| ensures dot[1..][k] >= 0.0 && (pexit[1..][k].Some? ==> 0.0 <= pexit[1..][k].value <= 1.0) {
          assert dot[1..][k] == dot[k + 1] && pexit[1..][k] == pexit[k + 1];
        }
      }
      WeightsNonNegative(area, dot[1..], pexit[1..], pdet[1..]);
      if pexit[0].Some? {
        var a := area * dot[0];
        assert a >= 0.0;
        assert a * pexit[0].value >= 0.0;
      }
    }
  }

  /** With non-negative weights and probabilities the effective area is non-negative. */
  lemma EffectiveAreaNonNegative(area: real, dot: seq<real>, pexit: seq<Option<real>>, pdet: seq<bool>, n: nat, stations: nat)
    requires |pexit| == |dot| && |pdet| == |dot|
    requires n >= 1 && stations >= 1
    requires area >= 0.0 && NonNegative(dot) && Probabilities(pexit)
    ensures EffectiveAreaOf(area, dot, pexit, pdet, n, stations).Some? ==>
      EffectiveAreaOf(area, dot, pexit, pdet, n, stations).value >= 0.0
  {
    WeightsNonNegative(area, dot, pexit, pdet);
    NormaliserPositive(n, stations);
  }

  // ---------------------------------------------------------------------------
  // The trigger matrix
  // ---------------------------------------------------------------------------

  /**
   * Fills row `i` of the trigger matrix for one station: each in-sight trial
   * gets 1 if its SNR exceeds the threshold and 0 otherwise; every other
   * entry, in this row or another, is left as it was.
   */
  method StationTriggers(ptrig: array2<real>, i: nat, v: StationView, cfg: Settings)
    requires i < ptrig.Length0 && WellShaped(v, ptrig.Length1) && cfg.vrms > 0.0
    modifies ptrig
    ensures forall r, j | 0 <= r < ptrig.Length0 && 0 <= j < ptrig.Length1 ::
      ptrig[r, j] == if r == i && InSight(v, j, cfg) then Threshold(v, j, cfg) else old(ptrig[r, j])
  {
    var n := ptrig.Length1;
    for j := 0 to n
      invariant forall r, k | 0 <= r < ptrig.Length0 && 0 <= k < n ::
        ptrig[r, k] == if r == i && k < j && InSight(v, k, cfg) then Threshold(v, k, cfg) else old(ptrig[r, k])
    {
      if InSight(v, j, cfg) {
        ptrig[i, j] := Threshold(v, j, cfg);
      }
    }
    // The horizon masks select the in-sight entries of the row with a boolean
    // mask first; that selection is a new array, so the zeros are written into
    // this temporary copy and the trigger matrix keeps its values.
    var sighted := new real[n];
    for j := 0 to n
      modifies sighted
    {
      sighted[j] := ptrig[i, j];
      if InSight(v, j, cfg) && Invisible(v, j) {
        sighted[j] := 0.0;
      }
      if InSight(v, j, cfg) && AboveHorizontal(v, j) {
        sighted[j] := 0.0;
      }
    }
  }

  /**
   * The station row as the comments intend it: as StationTriggers, and then
   * every in-sight trial that is invisible or above the horizontal is zeroed
   * in the trigger matrix itself.
   */
  method StationTriggersMasked(ptrig: array2<real>, i: nat, v: StationView, cfg: Settings)
    requires i < ptrig.Length0 && WellShaped(v, ptrig.Length1) && cfg.vrms > 0.0
    modifies ptrig
    ensures forall r, j | 0 <= r < ptrig.Length0 && 0 <= j < ptrig.Length1 ::
      ptrig[r, j] == if r == i && InSight(v, j, cfg) then (if Hidden(v, j) then 0.0 else Threshold(v, j, cfg))
                     else old(ptrig[r, j])
  {
    StationTriggers(ptrig, i, v, cfg);
    var n := ptrig.Length1;
    for j := 0 to n
      invariant forall r, k | 0 <= r < ptrig.Length0 && 0 <= k < n ::
        ptrig[r, k] == if r == i && InSight(v, k, cfg)
                       then (if k < j && Hidden(v, k) then 0.0 else Threshold(v, k, cfg))
                       else old(ptrig[r, k])
    {
      if InSight(v, j, cfg) && Hidden(v, j) {
        ptrig[i, j] := 0.0;
      }
    }
  }

  /** The n_stations x n_trials trigger matrix: zero-initialised, then filled station by station. */
  method TriggerMatrix(views: seq<StationView>, n: nat, cfg: Settings) returns (ptrig: array2<real>)
    requires AllWellShaped(views, n) && cfg.vrms > 0.0
    ensures fresh(ptrig)
    ensures ptrig.Length0 == |views| && ptrig.Length1 == n
    ensures forall i, j | 0 <= i < |views| && 0 <= j < n :: ptrig[i, j] == Trigger(views[i], j, cfg)
  {
    ptrig := new real[|views|, n]((_, _) => 0.0);
    for i := 0 to |views|
      invariant forall r, j | 0 <= r < |views| && 0 <= j < n ::
        ptrig[r, j] == if r < i then Trigger(views[r], j, cfg) else 0.0
    {
      StationTriggers(ptrig, i, views[i], cfg);
    }
  }

  /** The trigger matrix with the intended horizon masking. */
  method TriggerMatrixMasked(views: seq<StationView>, n: nat, cfg: Settings) returns (ptrig: array2<real>)
    requires AllWellShaped(views, n) && cfg.vrms > 0.0
    ensures fresh(ptrig)
    ensures ptrig.Length0 == |views| && ptrig.Length1 == n
    ensures forall i, j | 0 <= i < |views| && 0 <= j < n :: ptrig[i, j] == MaskedTrigger(views[i], j, cfg)
  {
    ptrig := new real[|views|, n]((_, _) => 0.0);
    for i := 0 to |views|
      invariant forall r, j | 0 <= r < |views| && 0 <= j < n ::
        ptrig[r, j] == if r < i then MaskedTrigger(views[r], j, cfg) else 0.0
    {
      StationTriggersMasked(ptrig, i, views[i], cfg);
    }
  }

  /**
   * Reduces the trigger matrix over stations: the column sum of each trial is
   * compared with 0. With non-negative entries a trial is flagged iff some
   * station's entry for it is positive.
   */
  method DetectionFlags(ptrig: array2<real>) returns (pdet: seq<bool>)
    requires forall i, j | 0 <= i < ptrig.Length0 && 0 <= j < ptrig.Length1 :: ptrig[i, j] >= 0.0
    ensures |pdet| == ptrig.Length1
    ensures forall j | 0 <= j < ptrig.Length1 ::
      pdet[j] <==> exists i | 0 <= i < ptrig.Length0 :: ptrig[i, j] > 0.0
  {
    pdet := [];
    for j := 0 to ptrig.Length1
      invariant |pdet| == j
      invariant forall k | 0 <= k < j :: pdet[k] <==> exists i | 0 <= i < ptrig.Length0 :: ptrig[i, k] > 0.0
    {
      var total := 0.0;
      for i := 0 to ptrig.Length0
        invariant total >= 0.0
        invariant total > 0.0 <==> exists r | 0 <= r < i :: ptrig[r, j] > 0.0
      {
        total := total + ptrig[i, j];
      }
      pdet := pdet + [total > 0.0];
    }
  }

  /**
   * The effective-area calculation for one batch of `N` requested trials seen
   * by the given stations: [0, 0, 0, 0] for an empty batch, and otherwise the
   * four coefficients of the batch under the detections of the trigger matrix
   * as the code computes it.
   */
  method Calculate(batch: TrialBatch, views: seq<StationView>, n: nat, cfg: Settings) returns (c: Coefficients)
    requires Aligned(batch) && AllWellShaped(views, |batch.emergence|)
    requires n >= 1 && |views| >= 1 && cfg.vrms > 0.0
    ensures |batch.emergence| == 0 ==> c == EMPTY
    ensures |batch.emergence| > 0 ==>
      c == CoefficientsOf(batch, Detections(views, |batch.emergence|, cfg), n, |views|)
    ensures 0.0 <= c.pdet <= 1.0
    ensures Probabilities(batch.pexit) ==> c.pexit.Some? ==> 0.0 <= c.pexit.value <= 1.0
    ensures batch.area >= 0.0 && NonNegative(batch.dot) ==> c.geometric >= 0.0
    ensures batch.area >= 0.0 && NonNegative(batch.dot) && Probabilities(batch.pexit) ==>
      c.effectiveArea.Some? ==> c.effectiveArea.value >= 0.0
  {
    var trials := |batch.emergence|;
    if trials == 0 {
      return EMPTY;
    }
    var ptrig := TriggerMatrix(views, trials, cfg);
    var pdet := DetectionFlags(ptrig);
    assert pdet == Detections(views, trials, cfg);
    c := CoefficientsOf(batch, pdet, n, |views|);
    CoefficientBounds(batch, pdet, n, |views|);
  }

  /** The same calculation with the intended horizon masking in the trigger matrix. */
  method CalculateMasked(batch: TrialBatch, views: seq<StationView>, n: nat, cfg: Settings) returns (c: Coefficients)
    requires Aligned(batch) && AllWellShaped(views, |batch.emergence|)
    requires n >= 1 && |views| >= 1 && cfg.vrms > 0.0
    ensures |batch.emergence| == 0 ==> c == EMPTY
    ensures |batch.emergence| > 0 ==>
      c == CoefficientsOf(batch, MaskedDetections(views, |batch.emergence|, cfg), n, |views|)
    ensures 0.0 <= c.pdet <= 1.0
    ensures Probabilities(batch.pexit) ==> c.pexit.Some? ==> 0.0 <= c.pexit.value <= 1.0
    ensures batch.area >= 0.0 && NonNegative(batch.dot) ==> c.geometric >= 0.0
    ensures batch.area >= 0.0 && NonNegative(batch.dot) && Probabilities(batch.pexit) ==>
      c.effectiveArea.Some? ==> c.effectiveArea.value >= 0.0
  {
    var trials := |batch.emergence|;
    if trials == 0 {
      return EMPTY;
    }
    var ptrig := TriggerMatrixMasked(views, trials, cfg);
    var pdet := DetectionFlags(ptrig);
    assert pdet == MaskedDetections(views, trials, cfg);
    c := CoefficientsOf(batch, pdet, n, |views|);
    CoefficientBounds(batch, pdet, n, |views|);
  }

  /** Bounds on the coefficients that hold whatever the detection flags are. */
  lemma CoefficientBounds(batch: TrialBatch, pdet: seq<bool>, n: nat, stations: nat)
    requires Aligned(batch) && |pdet| == |batch.emergence| > 0
    requires n >= 1 && stations >= 1
    ensures var c := CoefficientsOf(batch, pdet, n, stations);
      && 0.0 <= c.pdet <= 1.0
      && (Probabilities(batch.pexit) ==> c.pexit.Some? ==> 0.0 <= c.pexit.value <= 1.0)
      && (batch.area >= 0.0 && NonNegative(batch.dot) ==> c.geometric >= 0.0)
      && (batch.area >= 0.0 && NonNegative(batch.dot) && Probabilities(batch.pexit) ==>
            c.effectiveArea.Some? ==> c.effectiveArea.value >= 0.0)
  {
    DetectedFraction(pdet);
    if Probabilities(batch.pexit) {
      ExitProbabilityMean(batch.pexit);
    }
    if batch.area >= 0.0 && NonNegative(batch.dot) {
      GeometricNonNegative(batch.area, batch.dot, n, stations);
      if Probabilities(batch.pexit) {
        EffectiveAreaNonNegative(batch.area, batch.dot, batch.pexit, pdet, n, stations);
      }
    }
  }

  // ---------------------------------------------------------------------------
  // Scenarios and the horizon masks
  // ---------------------------------------------------------------------------

  /**
   * Every trial in sight of every station, every SNR above threshold and every
   * exit probability 1: every trial is detected, pexit and pdet are 1, and the
   * effective area is geometric * pexit * pdet.
   */
  lemma AllTriggerScenario(batch: TrialBatch, views: seq<StationView>, n: nat, cfg: Settings)
    requires Aligned(batch) && |batch.emergence| > 0 && AllWellShaped(views, |batch.emergence|)
    requires n >= 1 && |views| >= 1 && cfg.vrms > 0.0
    requires forall i, j | 0 <= i < |views| && 0 <= j < |batch.emergence| ::
      InSight(views[i], j, cfg) && views[i].voltageSum[j] / cfg.vrms > cfg.triggerSNR
    requires forall j | 0 <= j < |batch.emergence| :: batch.pexit[j] == Some(1.0)
    ensures var c := CoefficientsOf(batch, Detections(views, |batch.emergence|, cfg), n, |views|);
      c.pdet == 1.0 && c.pexit == Some(1.0) && c.effectiveArea == Some(c.geometric * 1.0 * 1.0)
  {
    var trials := |batch.emergence|;
    var pdet := Detections(views, trials, cfg);
    AllDetected(views, trials, cfg);
    DetectedFraction(pdet);
    EffectiveAreaFullyDetected(batch.area, batch.dot, batch.pexit, pdet, n, |views|);
    PexitAllOne(batch.pexit);
  }

  lemma AllDetected(views: seq<StationView>, n: nat, cfg: Settings)
    requires AllWellShaped(views, n) && |views| >= 1 && cfg.vrms > 0.0
    requires forall i, j | 0 <= i < |views| && 0 <= j < n ::
      InSight(views[i], j, cfg) && views[i].voltageSum[j] / cfg.vrms > cfg.triggerSNR
    ensures forall j | 0 <= j < n :: Detections(views, n, cfg)[j]
  {
    forall j | 0 <= j < n ensures Detections(views, n, cfg)[j] {
      assert Trigger(views[0], j, cfg) > 0.0;
    }
  }

  lemma {:induction false} PexitAllOne(p: seq<Option<real>>)
    requires forall k | 0 <= k < |p| :: p[k] == Some(1.0)
    ensures UnmaskedSum(p) == UnmaskedCount(p) as real && UnmaskedCount(p) == |p|
  {
    if p != [] {
      assert forall k | 0 <= k < |p[1..]| :: p[1..][k] == p[k + 1];
      PexitAllOne(p[1..]);
    }
  }

  /** No SNR reaches the threshold: pdet is exactly 0 and the effective area 0 (or masked). */
  lemma UnreachableThresholdScenario(batch: TrialBatch, views: seq<StationView>, n: nat, cfg: Settings)
    requires Aligned(batch) && |batch.emergence| > 0 && AllWellShaped(views, |batch.emergence|)
    requires n >= 1 && |views| >= 1 && cfg.vrms > 0.0
    requires forall i, j | 0 <= i < |views| && 0 <= j < |batch.emergence| ::
      views[i].voltageSum[j] / cfg.vrms <= cfg.triggerSNR
    ensures var c := CoefficientsOf(batch, Detections(views, |batch.emergence|, cfg), n, |views|);
      c.pdet == 0.0 && c.effectiveArea in {None, Some(0.0)}
  {
    var trials := |batch.emergence|;
    var pdet := Detections(views, trials, cfg);
    forall j | 0 <= j < trials ensures !pdet[j] {
      forall i | 0 <= i < |views| ensures Trigger(views[i], j, cfg) == 0.0 {
      }
    }
    DetectedFraction(pdet);
    EffectiveAreaUndetected(batch.area, batch.dot, batch.pexit, pdet, n, |views|);
  }

  /**
   * Under the intended masking a trial that every station sees as hidden
   * (behind the horizon or above the horizontal) is never detected, whatever
   * its voltages are.
   */
  lemma HiddenTrialNeverDetected(views: seq<StationView>, n: nat, cfg: Settings, j: nat)
    requires AllWellShaped(views, n) && cfg.vrms > 0.0 && j < n
    requires forall i | 0 <= i < |views| :: Hidden(views[i], j)
    ensures !MaskedDetections(views, n, cfg)[j]
  {
    forall i | 0 <= i < |views| ensures MaskedTrigger(views[i], j, cfg) == 0.0 {
      assert Hidden(views[i], j);
    }
  }

  /**
   * A masked trigger entry is never above the written one, and differs from it
   * exactly on in-sight hidden trials that cross the threshold.
   */
  lemma MaskingOnlyRemovesTriggers(v: StationView, j: nat, cfg: Settings)
    requires WellShaped(v, |v.groundView|) && j < |v.groundView| && cfg.vrms > 0.0
    ensures MaskedTrigger(v, j, cfg) <= Trigger(v, j, cfg)
    ensures MaskedTrigger(v, j, cfg) != Trigger(v, j, cfg) <==>
      InSight(v, j, cfg) && Hidden(v, j) && Threshold(v, j, cfg) == 1.0
  {
  }

  /**
   * As written, the horizon masks do not reach the trigger matrix: one station
   * whose two in-sight trials are behind the horizon and above the horizontal
   * respectively detects both, and with the intended masking neither.
   */
  lemma HiddenTrialsDetectedAsWritten()
    ensures var v := StationView([0.0, 0.0], [10.0, 10.0], [-0.2, 0.3], [500.0, 1.0], 100.0, -0.1);
      var cfg := Settings(0.05, 1.0, 5.0);
      && Invisible(v, 0) && AboveHorizontal(v, 1)
      && Detections([v], 2, cfg) == [true, true]
      && MaskedDetections([v], 2, cfg) == [false, false]
  {
    var v := StationView([0.0, 0.0], [10.0, 10.0], [-0.2, 0.3], [500.0, 1.0], 100.0, -0.1);
    var cfg := Settings(0.05, 1.0, 5.0);
    var views := [v];
    assert views[0] == v;
    assert Trigger(v, 0, cfg) == 1.0 && Trigger(v, 1, cfg) == 1.0;
    assert MaskedTrigger(v, 0, cfg) == 0.0 && MaskedTrigger(v, 1, cfg) == 0.0;
    var written := Detections(views, 2, cfg);
    var masked := MaskedDetections(views, 2, cfg);
    assert written[0] && written[1];
    assert !masked[0] && !masked[1];
    assert written == [true, true];
    assert masked == [false, false];
  }
}
