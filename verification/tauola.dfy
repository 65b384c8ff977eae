/**
 * The TAUOLA decay sampler (marmots/tauola.py).
 *
 * The decay table is an input value (loading it from disk is not modelled) and
 * every random draw is an explicit input: uniform values in [0, 1) for the shower
 * type and the energy fraction, and standard exponential variates for the decay
 * range.
 */
module Tauola {
  import opened Wrappers

  /** One simulated decay: the fraction of the tau energy carried by each final state. */
  datatype Decay = Decay(nuTau: real, nuMu: real, nuE: real, hadron: real, muon: real, electron: real)

  type DecayTable = seq<Decay>

  /** Integer labels of the shower types. */
  const HADRONIC: int := 0
  const ELECTROMAGNETIC: int := 1

  /** Mean decay length per unit tau energy: 4.9 km per 1e17 eV. */
  const KM_PER_EV: real := 0.000000000000000049

  // ---------------------------------------------------------------------------
  // Statistics derived once from the table
  // ---------------------------------------------------------------------------

  /** Number of decays with a positive electromagnetic fraction. */
  function Nem(table: DecayTable): (count: nat)
    ensures count <= |table|
  {
    if table == [] then 0
    else (if table[0].electron > 0.0 then 1 else 0) + Nem(table[1..])
  }

  /** Number of decays with a positive hadronic fraction. */
  function Nhad(table: DecayTable): (count: nat)
    ensures count <= |table|
  {
    if table == [] then 0
    else (if table[0].hadron > 0.0 then 1 else 0) + Nhad(table[1..])
  }

  /** Number of decays with a positive electromagnetic or hadronic fraction. */
  function Nshowers(table: DecayTable): (count: nat)
    ensures count <= |table|
  {
    if table == [] then 0
    else (if table[0].electron > 0.0 || table[0].hadron > 0.0 then 1 else 0) + Nshowers(table[1..])
  }

  /** The table's fractions are fractions: every hadronic and electromagnetic entry lies in [0, 1]. */
  predicate UnitFractions(table: DecayTable) {
    forall k | 0 <= k < |table| :: 0.0 <= table[k].hadron <= 1.0 && 0.0 <= table[k].electron <= 1.0
  }

  /** The energy sampler interpolates in both tables, so both must be non-empty. */
  predicate WellFormed(table: DecayTable) {
    Nem(table) >= 1 && Nhad(table) >= 1
  }

  /** Every decay row with a shower is counted once by Nshowers, and at most once by each of Nem, Nhad. */
  lemma {:induction false} ShowerCounts(table: DecayTable)
    ensures Nem(table) <= Nshowers(table)
    ensures Nhad(table) <= Nshowers(table)
    ensures Nshowers(table) <= Nem(table) + Nhad(table)
  {
    if table != [] {
      ShowerCounts(table[1..]);
    }
  }

  /** The positive electromagnetic fractions, in table order. */
  function ElectronFractions(table: DecayTable): (e: seq<real>)
    ensures |e| == Nem(table)
    ensures forall k | 0 <= k < |e| :: e[k] > 0.0
    ensures UnitFractions(table) ==> forall k | 0 <= k < |e| :: e[k] <= 1.0
  {
    if table == [] then []
    else
      assert UnitFractions(table) ==> UnitFractions(table[1..]) by {
        if UnitFractions(table) {
          forall k | 0 <= k < |table[1..]| ensures 0.0 <= table[1..][k].electron <= 1.0 {
            assert table[1..][k] == table[k + 1];
          }
        }
      }
      (if table[0].electron > 0.0 then [table[0].electron] else []) + ElectronFractions(table[1..])
  }

  /** The positive hadronic fractions, in table order. */
  function HadronFractions(table: DecayTable): (h: seq<real>)
    ensures |h| == Nhad(table)
    ensures forall k | 0 <= k < |h| :: h[k] > 0.0
    ensures UnitFractions(table) ==> forall k | 0 <= k < |h| :: h[k] <= 1.0
  {
    if table == [] then []
    else
      assert UnitFractions(table) ==> UnitFractions(table[1..]) by {
        if UnitFractions(table) {
          forall k | 0 <= k < |table[1..]| ensures 0.0 <= table[1..][k].hadron <= 1.0 {
            assert table[1..][k] == table[k + 1];
          }
        }
      }
      (if table[0].hadron > 0.0 then [table[0].hadron] else []) + HadronFractions(table[1..])
  }

  predicate Sorted(s: seq<real>) {
    forall i, j | 0 <= i < j < |s| :: s[i] <= s[j]
  }

  /** Inserts `x` into a sorted sequence, keeping it sorted. */
  function Insert(x: real, s: seq<real>): (r: seq<real>)
    requires Sorted(s)
    ensures |r| == |s| + 1
    ensures r[0] == if s == [] || x <= s[0] then x else s[0]
    ensures Sorted(r)
    ensures multiset(r) == multiset(s) + multiset{x}
  {
    if s == [] || x <= s[0] then [x] + s
    else
      assert s == [s[0]] + s[1..];
      [s[0]] + Insert(x, s[1..])
  }

  /** Ascending sort (the role of np.sort). */
  function Sort(s: seq<real>): (r: seq<real>)
    ensures |r| == |s|
    ensures Sorted(r)
    ensures multiset(r) == multiset(s)
  {
    if s == [] then []
    else
      assert s == [s[0]] + s[1..];
      Insert(s[0], Sort(s[1..]))
  }

  /** The electromagnetic fractions sorted ascending: the empirical quantiles. */
  function Eem(table: DecayTable): (e: seq<real>)
    ensures |e| == Nem(table) && Sorted(e)
    ensures multiset(e) == multiset(ElectronFractions(table))
  {
    Sort(ElectronFractions(table))
  }

  /** The hadronic fractions sorted ascending. */
  function Ehad(table: DecayTable): (h: seq<real>)
    ensures |h| == Nhad(table) && Sorted(h)
    ensures multiset(h) == multiset(HadronFractions(table))
  {
    Sort(HadronFractions(table))
  }

  /** Every sorted shower fraction is positive, and at most one when the table holds fractions. */
  lemma SortedFractionsInRange(table: DecayTable)
    ensures forall k | 0 <= k < Nem(table) :: 0.0 < Eem(table)[k]
    ensures forall k | 0 <= k < Nhad(table) :: 0.0 < Ehad(table)[k]
    ensures UnitFractions(table) ==> forall k | 0 <= k < Nem(table) :: Eem(table)[k] <= 1.0
    ensures UnitFractions(table) ==> forall k | 0 <= k < Nhad(table) :: Ehad(table)[k] <= 1.0
  {
    var e, ef := Eem(table), ElectronFractions(table);
    forall k | 0 <= k < |e|
      ensures 0.0 < e[k] && (UnitFractions(table) ==> e[k] <= 1.0)
    {
      assert e[k] in multiset(e);
      assert e[k] in ef;
    }
    var h, hf := Ehad(table), HadronFractions(table);
    forall k | 0 <= k < |h|
      ensures 0.0 < h[k] && (UnitFractions(table) ==> h[k] <= 1.0)
    {
      assert h[k] in multiset(h);
      assert h[k] in hf;
    }
  }

  /**
   * The threshold of the shower-type draw: the share of shower rows that have
   * an EM part. Defined when some row has a shower; with none, 0/0 is NaN.
   */
  function Pem(table: DecayTable): (p: real)
    requires Nshowers(table) >= 1
    ensures 0.0 <= p <= 1.0
    ensures p == 0.0 <==> Nem(table) == 0
    ensures p == 1.0 <==> Nem(table) == Nshowers(table)
  {
    ShowerCounts(table);
    Ratio(Nem(table), Nshowers(table));
    (Nem(table) as real) / (Nshowers(table) as real)
  }

  /** A count out of a positive total is a share in [0, 1], 0 only for none and 1 only for all. */
  lemma Ratio(part: nat, total: nat)
    requires part <= total && total >= 1
    ensures 0.0 <= part as real / total as real <= 1.0
    ensures part as real / total as real == 0.0 <==> part == 0
    ensures part as real / total as real == 1.0 <==> part == total
  {
    var q := part as real / total as real;
    assert q * total as real == part as real;
  }

  // ---------------------------------------------------------------------------
  // Linear interpolation (np.interp against the abscissae 0, 1, ..., |fp| - 1)
  // ---------------------------------------------------------------------------

  /**
   * The value at `x` of the piecewise-linear curve through (k, fp[k]), held at
   * fp[0] left of 0 and at the last value right of |fp| - 1.
   */
  function Interp(fp: seq<real>, x: real): real
    requires |fp| >= 1
  {
    var last := |fp| - 1;
    if x <= 0.0 then fp[0]
    else if x >= last as real then fp[last]
    else
      var i := x.Floor;
      fp[i] + (x - i as real) * (fp[i + 1] - fp[i])
  }

  lemma MulMonotone(a: real, b: real, c: real)
    requires a <= b && 0.0 <= c
    ensures a * c <= b * c && c * a <= c * b
  {}

  lemma Between(t: real, a: real, b: real)
    requires 0.0 <= t <= 1.0 && a <= b
    ensures a <= a + t * (b - a) <= b
  {
    MulMonotone(0.0, t, b - a);
    MulMonotone(t, 1.0, b - a);
  }

  /** Strictly inside the abscissae, the curve stays between the two order statistics around `x`. */
  lemma InterpInSegment(fp: seq<real>, x: real)
    requires |fp| >= 1 && Sorted(fp)
    requires 0.0 < x < (|fp| - 1) as real
    ensures 0 <= x.Floor < |fp| - 1
    ensures fp[x.Floor] <= Interp(fp, x) <= fp[x.Floor + 1]
  {
    var i := x.Floor;
    Between(x - i as real, fp[i], fp[i + 1]);
  }

  /** The curve passes through every order statistic. */
  lemma InterpAtKnot(fp: seq<real>, k: nat)
    requires k < |fp|
    ensures Interp(fp, k as real) == fp[k]
  {
    if 0 < k < |fp| - 1 {
      assert (k as real).Floor == k;
    }
  }

  /** On a sorted table the curve lies between its first and last values. */
  lemma InterpBounds(fp: seq<real>, x: real)
    requires |fp| >= 1 && Sorted(fp)
    ensures fp[0] <= Interp(fp, x) <= fp[|fp| - 1]
  {
    if 0.0 < x < (|fp| - 1) as real {
      InterpInSegment(fp, x);
    }
  }

  /** On a sorted table the curve is monotone non-decreasing. */
  lemma InterpMonotone(fp: seq<real>, x: real, y: real)
    requires |fp| >= 1 && Sorted(fp)
    requires x <= y
    ensures Interp(fp, x) <= Interp(fp, y)
  {
    var last := |fp| - 1;
    InterpBounds(fp, x);
    InterpBounds(fp, y);
    if 0.0 < x && y < last as real {
      var i, j := x.Floor, y.Floor;
      InterpInSegment(fp, x);
      InterpInSegment(fp, y);
      assert i <= j;
      if i == j {
        var d := fp[i + 1] - fp[i];
        var tx, ty := x - i as real, y - i as real;
        MulMonotone(tx, ty, d);
        calc {
          Interp(fp, x);
        ==
          fp[i] + tx * d;
        <=
          fp[i] + ty * d;
        ==
          Interp(fp, y);
        }
      } else {
        assert fp[i + 1] <= fp[j];
      }
    }
  }

  // ---------------------------------------------------------------------------
  // Sampling
  // ---------------------------------------------------------------------------

  /** The interpolation abscissa for the draw `u` in a table of `k` order statistics: k * u. */
  function Abscissa(k: nat, u: real): real {
    k as real * u
  }

  /**
   * Empirical inverse CDF: the sorted sample `sorted` read at abscissa
   * |sorted| * u, interpolating linearly between order statistics.
   */
  function Quantile(sorted: seq<real>, u: real): real
    requires |sorted| >= 1
  {
    Interp(sorted, Abscissa(|sorted|, u))
  }

  /** A larger draw never reads a smaller quantile. */
  lemma QuantileMonotone(sorted: seq<real>, u: real, v: real)
    requires |sorted| >= 1 && Sorted(sorted)
    requires u <= v
    ensures Quantile(sorted, u) <= Quantile(sorted, v)
  {
    MulMonotone(u, v, |sorted| as real);
    var x, y := Abscissa(|sorted|, u), Abscissa(|sorted|, v);
    InterpMonotone(sorted, x, y);
    assert Quantile(sorted, u) == Interp(sorted, x);
    assert Quantile(sorted, v) == Interp(sorted, y);
  }

  /**
   * Every quantile lies between the smallest and largest order statistic, and a
   * draw whose abscissa reaches the last index reads the largest one.
   */
  lemma QuantileBounds(sorted: seq<real>, u: real)
    requires |sorted| >= 1 && Sorted(sorted)
    ensures sorted[0] <= Quantile(sorted, u) <= sorted[|sorted| - 1]
    ensures Abscissa(|sorted|, u) >= (|sorted| - 1) as real ==> Quantile(sorted, u) == sorted[|sorted| - 1]
  {
    var x := Abscissa(|sorted|, u);
    InterpBounds(sorted, x);
    assert Quantile(sorted, u) == Interp(sorted, x);
  }

  /**
   * The shower type drawn with the uniform value `u`: electromagnetic iff
   * u > Pem. Without shower rows the threshold is NaN, which no draw exceeds.
   */
  function ShowerType(table: DecayTable, u: real): (t: int)
    ensures t == ELECTROMAGNETIC || t == HADRONIC
    ensures u <= 0.0 ==> t == HADRONIC
    ensures Nshowers(table) >= 1 && Nem(table) == Nshowers(table) && u <= 1.0 ==> t == HADRONIC
  {
    if Nshowers(table) >= 1 && u > Pem(table) then ELECTROMAGNETIC else HADRONIC
  }

  /**
   * The shower type with Pem read as the probability of an electromagnetic
   * shower: electromagnetic iff u < Pem.
   */
  function IntendedShowerType(table: DecayTable, u: real): (t: int)
    ensures t == ELECTROMAGNETIC || t == HADRONIC
    ensures Nshowers(table) >= 1 && Nem(table) == Nshowers(table) && 0.0 <= u < 1.0 ==> t == ELECTROMAGNETIC
    ensures Nem(table) == 0 && u >= 0.0 ==> t == HADRONIC
  {
    if Nshowers(table) >= 1 && u < Pem(table) then ELECTROMAGNETIC else HADRONIC
  }

  /**
   * For a uniform draw in [0, 1), the electromagnetic draws of ShowerType form
   * the interval (Pem, 1), of length 1 - Pem, and those of IntendedShowerType
   * form [0, Pem), of length Pem.
   */
  lemma ElectromagneticDraws(table: DecayTable, u: real)
    requires Nshowers(table) >= 1 && 0.0 <= u < 1.0
    ensures ShowerType(table, u) == ELECTROMAGNETIC <==> Pem(table) < u < 1.0
    ensures IntendedShowerType(table, u) == ELECTROMAGNETIC <==> 0.0 <= u < Pem(table)
  {
  }

  /**
   * A table whose only decay has both an EM and a hadronic part has Pem = 1:
   * every shower is electromagnetic, yet ShowerType labels every draw in [0, 1)
   * hadronic, while IntendedShowerType labels every one electromagnetic.
   */
  lemma ShowerTypeInverted(u: real)
    requires 0.0 <= u < 1.0
    ensures var table := [Decay(0.0, 0.0, 0.0, 0.5, 0.0, 0.5)];
      && Pem(table) == 1.0
      && ShowerType(table, u) == HADRONIC
      && IntendedShowerType(table, u) == ELECTROMAGNETIC
  {
    var table := [Decay(0.0, 0.0, 0.0, 0.5, 0.0, 0.5)];
    assert table[1..] == [];
    assert Nem(table) == 1 && Nshowers(table) == 1;
  }

  /**
   * The energy fraction drawn with the uniform value `u` for a shower of type
   * `stype`: the empirical inverse CDF of that type's fractions (|Eem| = Nem and
   * |Ehad| = Nhad), and 0 for any other label.
   */
  function EnergyFraction(table: DecayTable, stype: int, u: real): real
    requires WellFormed(table)
  {
    if stype == ELECTROMAGNETIC then Quantile(Eem(table), u)
    else if stype == HADRONIC then Quantile(Ehad(table), u)
    else 0.0
  }

  /**
   * A sampled fraction lies between the smallest and largest fraction of its
   * shower type, so it is positive; a draw that reaches past the last
   * abscissa is clamped to the largest fraction; any other label gives 0.
   */
  lemma EnergyFractionBounds(table: DecayTable, stype: int, u: real)
    requires WellFormed(table)
    ensures stype == ELECTROMAGNETIC ==>
      0.0 < Eem(table)[0] <= EnergyFraction(table, stype, u) <= Eem(table)[Nem(table) - 1]
    ensures stype == HADRONIC ==>
      0.0 < Ehad(table)[0] <= EnergyFraction(table, stype, u) <= Ehad(table)[Nhad(table) - 1]
    ensures stype == ELECTROMAGNETIC && Abscissa(Nem(table), u) >= (Nem(table) - 1) as real ==>
      EnergyFraction(table, stype, u) == Eem(table)[Nem(table) - 1]
    ensures stype == HADRONIC && Abscissa(Nhad(table), u) >= (Nhad(table) - 1) as real ==>
      EnergyFraction(table, stype, u) == Ehad(table)[Nhad(table) - 1]
    ensures stype != ELECTROMAGNETIC && stype != HADRONIC ==> EnergyFraction(table, stype, u) == 0.0
    ensures UnitFractions(table) ==> EnergyFraction(table, stype, u) <= 1.0
  {
    if stype == ELECTROMAGNETIC {
      SortedFractionsInRange(table);
      QuantileInRange(Eem(table), u, UnitFractions(table));
    } else if stype == HADRONIC {
      SortedFractionsInRange(table);
      QuantileInRange(Ehad(table), u, UnitFractions(table));
    }
  }

  /** QuantileBounds for a table of positive values, at most one when `unit` holds. */
  lemma QuantileInRange(sorted: seq<real>, u: real, unit: bool)
    requires |sorted| >= 1 && Sorted(sorted)
    requires forall k | 0 <= k < |sorted| :: 0.0 < sorted[k] && (unit ==> sorted[k] <= 1.0)
    ensures 0.0 < sorted[0] <= Quantile(sorted, u) <= sorted[|sorted| - 1]
    ensures Abscissa(|sorted|, u) >= (|sorted| - 1) as real ==> Quantile(sorted, u) == sorted[|sorted| - 1]
    ensures unit ==> Quantile(sorted, u) <= 1.0
  {
    QuantileBounds(sorted, u);
    assert unit ==> sorted[|sorted| - 1] <= 1.0;
  }

  /** For a fixed shower type, a larger uniform draw never gives a smaller fraction. */
  lemma EnergyFractionMonotone(table: DecayTable, stype: int, u: real, v: real)
    requires WellFormed(table)
    requires u <= v
    ensures EnergyFraction(table, stype, u) <= EnergyFraction(table, stype, v)
  {
    if stype == ELECTROMAGNETIC {
      QuantileMonotone(Eem(table), u, v);
    } else if stype == HADRONIC {
      QuantileMonotone(Ehad(table), u, v);
    }
  }

  /** Draws `n` shower types: all start hadronic, and those whose draw exceeds Pem become electromagnetic. */
  method SampleShowerType(table: DecayTable, n: nat, u: seq<real>) returns (stypes: array<int>)
    requires |u| == n
    ensures fresh(stypes)
    ensures stypes.Length == n
    ensures forall k | 0 <= k < n :: stypes[k] == ShowerType(table, u[k])
    ensures forall k | 0 <= k < n :: stypes[k] == ELECTROMAGNETIC || stypes[k] == HADRONIC
    ensures forall k | 0 <= k < n :: stypes[k] == ELECTROMAGNETIC <==> Nshowers(table) >= 1 && u[k] > Pem(table)
  {
    stypes := new int[n](_ => HADRONIC);
    if Nshowers(table) == 0 {
      return;
    }
    var pem := Pem(table);
    for k := 0 to n
      invariant forall j | 0 <= j < k :: stypes[j] == ShowerType(table, u[j])
      invariant forall j | k <= j < n :: stypes[j] == HADRONIC
    {
      if u[k] > pem {
        stypes[k] := ELECTROMAGNETIC;
      }
    }
  }

  /**
   * One masked assignment of the sampler: every slot of type `stype` receives
   * the quantile of `sorted` at that slot's draw; the other slots keep their value.
   */
  method FillSlots(fractions: array<real>, stypes: array<int>, stype: int, sorted: seq<real>, u: seq<real>)
    requires fractions.Length == stypes.Length == |u|
    requires |sorted| >= 1
    modifies fractions
    ensures forall j | 0 <= j < fractions.Length ::
      fractions[j] == if stypes[j] == stype then Quantile(sorted, u[j]) else old(fractions[j])
  {
    for k := 0 to fractions.Length
      invariant forall j | 0 <= j < fractions.Length ::
        fractions[j] == if j < k && stypes[j] == stype then Quantile(sorted, u[j]) else old(fractions[j])
    {
      if stypes[k] == stype {
        fractions[k] := Quantile(sorted, u[k]);
      }
    }
  }

  /**
   * Draws one energy fraction per shower type: the slots start at 0, then the
   * electromagnetic slots and the hadronic slots are filled by interpolation.
   */
  method SampleEnergyFraction(table: DecayTable, stypes: array<int>, u: seq<real>) returns (fractions: array<real>)
    requires WellFormed(table)
    requires |u| == stypes.Length
    ensures fresh(fractions)
    ensures fractions.Length == stypes.Length
    ensures forall k | 0 <= k < stypes.Length :: fractions[k] == EnergyFraction(table, stypes[k], u[k])
  {
    fractions := new real[stypes.Length](_ => 0.0);
    FillSlots(fractions, stypes, ELECTROMAGNETIC, Eem(table), u);
    FillSlots(fractions, stypes, HADRONIC, Ehad(table), u);
  }

  /** The part of `energy` carried by `fraction` of it. */
  function Portion(energy: real, fraction: real): real {
    energy * fraction
  }

  lemma PortionBounds(energy: real, fraction: real)
    requires 0.0 < fraction
    ensures energy > 0.0 ==> Portion(energy, fraction) > 0.0
    ensures energy >= 0.0 && fraction <= 1.0 ==> Portion(energy, fraction) <= energy
  {
    if energy >= 0.0 && fraction <= 1.0 {
      MulMonotone(fraction, 1.0, energy);
    }
  }

  /**
   * A sampled shower carries a positive part of a positive energy, and never
   * more than all of it when the table holds fractions.
   */
  lemma SampledEnergyBounds(table: DecayTable, energy: real, uType: real, uFraction: real)
    requires WellFormed(table)
    ensures var e := Portion(energy, EnergyFraction(table, ShowerType(table, uType), uFraction));
      (energy > 0.0 ==> e > 0.0) && (energy >= 0.0 && UnitFractions(table) ==> e <= energy)
  {
    var stype := ShowerType(table, uType);
    var f := EnergyFraction(table, stype, uFraction);
    EnergyFractionBounds(table, stype, uFraction);
    PortionBounds(energy, f);
  }

  /**
   * Draws `n` tau energies from one neutrino energy: a shower type per draw,
   * then an energy fraction per type, scaled by `enu`.
   */
  method SampleTauEnergies(table: DecayTable, enu: real, n: nat, uType: seq<real>, uFraction: seq<real>)
    returns (etau: seq<real>)
    requires WellFormed(table)
    requires |uType| == n && |uFraction| == n
    ensures |etau| == n
    ensures forall k | 0 <= k < n ::
      etau[k] == Portion(enu, EnergyFraction(table, ShowerType(table, uType[k]), uFraction[k]))
  {
    var stypes := SampleShowerType(table, n, uType);
    var fractions := SampleEnergyFraction(table, stypes, uFraction);
    var f := fractions[..];
    etau := seq(n, k requires 0 <= k < n => Portion(enu, f[k]));
  }

  /**
   * Element-wise variant for an array of tau energies: one shower type and one
   * energy fraction per entry, scaling that entry's energy.
   */
  method SampleShowerEnergies(table: DecayTable, etau: seq<real>, uType: seq<real>, uFraction: seq<real>)
    returns (eshower: seq<real>)
    requires WellFormed(table)
    requires |uType| == |etau| && |uFraction| == |etau|
    ensures |eshower| == |etau|
    ensures forall k | 0 <= k < |etau| ::
      eshower[k] == Portion(etau[k], EnergyFraction(table, ShowerType(table, uType[k]), uFraction[k]))
  {
    var n := |etau|;
    var stypes := SampleShowerType(table, n, uType);
    var fractions := SampleEnergyFraction(table, stypes, uFraction);
    var f := fractions[..];
    eshower := seq(n, k requires 0 <= k < n => Portion(etau[k], f[k]));
  }

  /**
   * Decay lengths (km): an exponential variate with mean KM_PER_EV * energy per
   * entry, written as that mean times a standard exponential draw. A negative
   * energy is a negative scale, which the exponential sampler rejects (None).
   */
  function SampleRange(etau: seq<real>, draws: seq<real>): (ranges: Option<seq<real>>)
    requires |draws| == |etau|
    ensures ranges.None? <==> exists k | 0 <= k < |etau| :: etau[k] < 0.0
    ensures ranges.Some? ==> |ranges.value| == |etau|
    ensures ranges.Some? ==> forall k | 0 <= k < |etau| :: draws[k] >= 0.0 ==> ranges.value[k] >= 0.0
    ensures ranges.Some? ==> forall k | 0 <= k < |etau| :: etau[k] == 0.0 ==> ranges.value[k] == 0.0
  {
    if exists k | 0 <= k < |etau| :: etau[k] < 0.0 then None
    else Some(seq(|etau|, k requires 0 <= k < |etau| => KM_PER_EV * etau[k] * draws[k]))
  }

  /**
   * With the same exponential draws, a more energetic tau never gets a shorter
   * decay range: the mean range grows linearly with the energy.
   */
  lemma RangeMonotone(etau: seq<real>, etau': seq<real>, draws: seq<real>)
    requires |etau| == |etau'| == |draws|
    requires forall k | 0 <= k < |draws| :: draws[k] >= 0.0 && 0.0 <= etau[k] <= etau'[k]
    ensures SampleRange(etau, draws).Some? && SampleRange(etau', draws).Some?
    ensures forall k | 0 <= k < |etau| :: SampleRange(etau, draws).value[k] <= SampleRange(etau', draws).value[k]
  {
    var lo, hi := SampleRange(etau, draws), SampleRange(etau', draws);
    forall k | 0 <= k < |etau| ensures lo.value[k] <= hi.value[k] {
      ScaledMonotone(etau[k], etau'[k], draws[k]);
    }
  }

  lemma ScaledMonotone(e: real, e': real, d: real)
    requires e <= e' && d >= 0.0
    ensures KM_PER_EV * e * d <= KM_PER_EV * e' * d
  {
    MulMonotone(e, e', KM_PER_EV);
    MulMonotone(KM_PER_EV * e, KM_PER_EV * e', d);
  }
}
