# marmots: tau decay sampling and the effective-area event loop

This project models two parts of marmots, a simulator that estimates how
much tau-neutrino flux a ground radio array (BEACON) can detect.

- **Tauola** (`tauola.dfy`) models the TAUOLA decay sampler.
  - From a table of simulated tau decays it derives the counts `Nem`,
    `Nhad` and `Nshowers`, and the sorted electromagnetic and hadronic
    energy fractions `Eem` and `Ehad`.
  - It draws shower types with the threshold `Pem = Nem / Nshowers`.
  - It draws energy fractions by the empirical inverse CDF, i.e. linear
    interpolation between order statistics that is clamped at both ends.
  - It scales those fractions into tau and shower energies, and draws
    decay ranges.
- **EffectiveArea** (`effective_area.dfy`) models the `calculate` loop.
  - The empty-batch case.
  - The `n_stations x n_trials` trigger matrix. It starts at zero and is
    filled station by station, for in-sight trials only, with a strict
    `SNR > trigger_SNR` test.
  - The horizon masks.
  - The OR-reduction over stations into per-trial detection flags.
  - The four coefficients: geometric, pexit, pdet and effective area.
- **Wrappers** (`wrappers.dfy`) holds `Option`. `None` stands for a masked
  numpy entry and for the masked constant that a fully masked mean or sum
  returns.

Random draws are explicit inputs:
- uniform values for the shower type and for the energy fraction;
- standard exponential draws for the decay range. An exponential variate
  with scale `s` is `s` times a standard one.

The outputs of the geometry, antenna, voltage and tau-exit collaborators are
input arrays as well. The per-station outputs (summed voltage, elevation,
distance to decay) are aligned to the full trial batch and read only where the
trial is in sight of that station. The ground view angles, `area`, `dot` and
`Pexit` are read at every trial.

Two places in the source call for a note:
- `sample_shower_type` calls `Pem` "the probability that a shower is
  electromagnetic" (marmots/tauola.py:125-126). Line 132 then labels a
  shower electromagnetic when `u > Pem`, so uniform draws give an
  electromagnetic shower with probability `1 - Pem`. `Tauola.ShowerType`
  keeps `u > Pem`, as the code does. `Tauola.IntendedShowerType` gives the
  reading of the comment. See "## Findings".
- `calculate` calls `tauola.sample_shower_energies` (marmots/effective_area.py:93),
  which `tauola.py` does not define. It is modelled as
  `Tauola.SampleShowerEnergies`: the element-wise version of
  `sample_tau_energies`, scaling each tau energy by the fraction drawn for
  its position.

## Model

| member | source | states |
|---|---|---|
| Tauola.Nem | marmots/tauola.py:30 | Counts the rows with a positive EM fraction; the count is at most the number of rows. |
| Tauola.Nhad | marmots/tauola.py:31 | Counts the rows with a positive hadronic fraction; the count is at most the number of rows. |
| Tauola.Nshowers | marmots/tauola.py:34 | Counts the rows with a positive EM or hadronic fraction; the count is at most the number of rows. |
| Tauola.ShowerCounts | marmots/tauola.py:30-34 | Nem <= Nshowers and Nhad <= Nshowers. Nshowers <= Nem + Nhad, since every shower row has an EM or a hadronic part. |
| Tauola.ElectronFractions | marmots/tauola.py:30-37 | Selects the positive EM fractions. There are exactly Nem of them, all positive, and all at most 1 when the table holds fractions. |
| Tauola.HadronFractions | marmots/tauola.py:31-38 | The same for the hadronic fractions, with count Nhad. |
| Tauola.Sort | marmots/tauola.py:37-38 | np.sort: the result is sorted ascending and is a permutation of its input (same multiset, same length). |
| Tauola.Eem | marmots/tauola.py:37 | Eem has length Nem, is sorted, and is a permutation of the positive EM fractions. |
| Tauola.Ehad | marmots/tauola.py:38 | Ehad has length Nhad, is sorted, and is a permutation of the positive hadronic fractions. |
| Tauola.SortedFractionsInRange | marmots/tauola.py:37-38 | Every entry of Eem and Ehad is strictly positive, and at most 1 when the table holds fractions. |
| Tauola.Pem | marmots/tauola.py:126 | When some row has a shower, Nem/Nshowers lies in [0, 1]. It is 0 iff no row has an EM part, and 1 iff every shower row has one. |
| Tauola.ShowerType | marmots/tauola.py:123-132 | Defines the label of one draw: EM iff u > Pem, and hadronic without shower rows (no draw exceeds the NaN of 0/0). Every label is 0 or 1. A draw <= 0 is hadronic. When every shower row has an EM part, every draw <= 1 is hadronic. |
| Tauola.IntendedShowerType | marmots/tauola.py:125-126 | The label as the comment reads Pem: EM iff u < Pem. When every shower row has an EM part, every draw in [0, 1) is EM. Without EM rows, no draw >= 0 is. |
| Tauola.ElectromagneticDraws | marmots/tauola.py:123-132 | For u in [0, 1): ShowerType is EM exactly on (Pem, 1), an interval of length 1 - Pem. IntendedShowerType is EM exactly on [0, Pem), of length Pem. |
| Tauola.ShowerTypeInverted | marmots/tauola.py:125-132 | For a one-row table whose decay has both an EM and a hadronic part, Pem = 1. ShowerType labels every draw in [0, 1) hadronic, and IntendedShowerType labels every one EM. |
| Tauola.Interp | marmots/tauola.py:101-102 | Defines np.interp against the abscissae 0..K-1: linear between neighbouring knots, held at fp[0] left of 0 and at fp[K-1] right of K-1. Its properties are the Interp* lemmas below. |
| Tauola.Quantile | marmots/tauola.py:101-102 | Defines `np.interp(K * u, np.arange(K), sorted)`: the sorted sample read at abscissa K*u. QuantileBounds, QuantileMonotone and QuantileInRange state its properties. |
| Tauola.InterpInSegment | marmots/tauola.py:101-102 | Strictly inside the abscissae, np.interp on a sorted table lies between the two order statistics around x. |
| Tauola.InterpAtKnot | marmots/tauola.py:101-102 | The interpolant passes through every order statistic: its value at k is fp[k]. |
| Tauola.InterpBounds | marmots/tauola.py:101-102 | On a sorted table the interpolant lies between fp[0] and fp[last], including the clamped regions. |
| Tauola.InterpMonotone | marmots/tauola.py:101-102 | On a sorted table the interpolant is non-decreasing in x. |
| Tauola.QuantileMonotone | marmots/tauola.py:101-102 | The inverse CDF read at K*u is non-decreasing in u. |
| Tauola.QuantileBounds | marmots/tauola.py:101-102 | The inverse CDF lies in [sorted[0], sorted[K-1]]. When K*u >= K-1 it is clamped to sorted[K-1]. |
| Tauola.QuantileInRange | marmots/tauola.py:101-102 | For positive order statistics the inverse CDF is positive, and at most 1 when every order statistic is. |
| Tauola.EnergyFraction | marmots/tauola.py:97-102 | Defines the fraction for one slot: the quantile of Eem for EM, of Ehad for hadronic, and 0 for any other label. Its properties are EnergyFractionBounds and EnergyFractionMonotone. |
| Tauola.EnergyFractionBounds | marmots/tauola.py:91-102 | An EM draw lies in [Eem[0], Eem[Nem-1]] and a hadronic draw in [Ehad[0], Ehad[Nhad-1]], so both are positive. Draws past the last abscissa clamp to the largest fraction. Any other label gives 0. Every draw is <= 1 when the table holds fractions. |
| Tauola.EnergyFractionMonotone | marmots/tauola.py:101-102 | For a fixed shower type, a larger uniform draw never gives a smaller fraction. |
| Tauola.SampleShowerType | marmots/tauola.py:108-135 | Returns a fresh array of N labels. Each label is 0 or 1, and it is electromagnetic exactly when the table has shower rows and the draw is strictly greater than Pem. |
| Tauola.FillSlots | marmots/tauola.py:101-102 | One masked assignment: every slot of the given type gets the quantile at its own draw, and every other slot is unchanged. |
| Tauola.SampleEnergyFraction | marmots/tauola.py:68-105 | The result has the length of stypes. Each slot holds the inverse-CDF draw of its own type. Labels other than 0 and 1 keep the initial 0, as EnergyFractionBounds spells out. |
| Tauola.PortionBounds | marmots/tauola.py:65 | A positive fraction of a positive energy is positive. A fraction of at most 1 is never more than the energy. |
| Tauola.SampledEnergyBounds | marmots/tauola.py:59-65 | A sampled tau energy is positive for a positive Enu, and at most Enu when the table holds fractions. |
| Tauola.SampleTauEnergies | marmots/tauola.py:41-65 | Returns N energies. Entry k is Enu times the fraction drawn for the shower type sampled at k. |
| Tauola.SampleShowerEnergies | marmots/effective_area.py:93 | One shower energy per tau energy. Entry k is Etau[k] times the fraction drawn for the shower type sampled at k. |
| Tauola.SampleRange | marmots/tauola.py:138-160 | Fails (None) iff some energy is negative, a negative scale that the exponential sampler rejects. Otherwise it gives one range per energy: non-negative for a non-negative draw, and zero for zero energy. |
| Tauola.RangeMonotone | marmots/tauola.py:160 | For non-negative energies and the same exponential draws, both samples succeed, and a larger tau energy never gives a shorter range. |
| EffectiveArea.InSight | marmots/effective_area.py:120 | Defines in_sight: the ground view angle is at most maxview (inclusive). |
| EffectiveArea.Threshold | marmots/effective_area.py:156-159 | Defines the trigger value of an in-sight trial: 1 iff voltage/vrms strictly exceeds trigger_SNR, else 0. |
| EffectiveArea.Invisible | marmots/effective_area.py:169-178 | Defines invisible as beyond (distance to decay > horizon distance) and below (elevation < horizon angle). |
| EffectiveArea.AboveHorizontal | marmots/effective_area.py:186 | Defines the mask elev > 0.0, strictly. |
| EffectiveArea.Trigger | marmots/effective_area.py:113-159 | Defines entry (i, j) as written: 1 iff trial j is in sight of station i and voltage/vrms > trigger_SNR, else the initial 0. TriggerMatrix is proved to compute it. |
| EffectiveArea.MaskedTrigger | marmots/effective_area.py:181-186 | Defines the corrected entry: as Trigger, but 0 for in-sight trials that are invisible or above the horizontal. MaskingOnlyRemovesTriggers relates it to Trigger. |
| EffectiveArea.Detections | marmots/effective_area.py:188 | Defines Pdet: trial j is detected iff some station's Trigger entry is positive. DetectionFlags is proved to compute it from the matrix. |
| EffectiveArea.MaskedDetections | marmots/effective_area.py:181-188 | Defines the corrected Pdet: some station's MaskedTrigger entry is positive. HiddenTrialNeverDetected states its key property. |
| EffectiveArea.Geometric | marmots/effective_area.py:191 | Defines area * sum(dot) / (N * n_stations). GeometricNonNegative states its sign. |
| EffectiveArea.MaskedMean | marmots/effective_area.py:192 | Defines the mean of the unmasked Pexit entries, None when all are masked. ExitProbabilityMean states its range. |
| EffectiveArea.Mean | marmots/effective_area.py:193 | Defines the mean of the detection flags. DetectedFraction states its range and extremes. |
| EffectiveArea.EffectiveAreaOf | marmots/effective_area.py:194 | Defines sum(area * dot * Pexit * Pdet) / (N * n_stations) over the unmasked terms, None when all are masked. The EffectiveArea* lemmas state its properties. |
| EffectiveArea.CoefficientsOf | marmots/effective_area.py:191-194 | Defines the four-element vector [geometric, pexit, pdet, effective_area] of a non-empty batch from its detection flags. CoefficientBounds states its bounds. |
| EffectiveArea.StationTriggers | marmots/effective_area.py:118-186 | One loop iteration. It writes only row i: an in-sight trial gets 1 iff voltage/vrms > trigger_SNR, else 0. Out-of-sight trials and all other rows are unchanged. The horizon masks write into a temporary and leave the matrix unchanged. |
| EffectiveArea.StationTriggersMasked | marmots/effective_area.py:159-186 | The iteration as the comments intend. It is as above, except that in-sight trials which are invisible (beyond the horizon distance and below the horizon angle) or above the horizontal get 0. |
| EffectiveArea.TriggerMatrix | marmots/effective_area.py:111-186 | A fresh matrix has shape n_stations x n_trials. Entry (i, j) is 1 iff trial j is in sight of station i and its SNR strictly exceeds the threshold, and 0 otherwise. |
| EffectiveArea.TriggerMatrixMasked | marmots/effective_area.py:111-186 | The same fresh matrix with the horizon masks applied. |
| EffectiveArea.DetectionFlags | marmots/effective_area.py:188 | Over a non-negative matrix, Pdet[j] (column sum > 0) holds iff some station's entry for trial j is positive. |
| EffectiveArea.Calculate | marmots/effective_area.py:77-198 | An empty batch gives [0, 0, 0, 0]. Otherwise the result is the four coefficients under the detections of the written trigger matrix. pdet lies in [0, 1], and pexit does when the exit probabilities do. geometric and the effective area are non-negative for non-negative weights. |
| EffectiveArea.CalculateMasked | marmots/effective_area.py:77-198 | The same, with the detections of the masked trigger matrix. |
| EffectiveArea.CoefficientBounds | marmots/effective_area.py:191-194 | For any detection flags: pdet in [0, 1], pexit in [0, 1] when the exit probabilities are, and geometric and the effective area non-negative for non-negative area, dot and Pexit. |
| EffectiveArea.DetectedFraction | marmots/effective_area.py:193 | pdet, the mean of Pdet, lies in [0, 1]. It is 1 iff every trial is detected and 0 iff none is. |
| EffectiveArea.ExitProbabilityMean | marmots/effective_area.py:192 | The mean of the unmasked exit probabilities is a probability. It is masked iff every entry is masked. |
| EffectiveArea.GeometricNonNegative | marmots/effective_area.py:191 | area * sum(dot) / (N * n_stations) is non-negative for a non-negative area and non-negative dot weights. |
| EffectiveArea.EffectiveAreaUndetected | marmots/effective_area.py:194 | With no trial detected the effective area is 0, or masked when every Pexit entry is masked. |
| EffectiveArea.EffectiveAreaFullyDetected | marmots/effective_area.py:191-194 | With every Pexit equal to 1 and every trial detected, the effective area equals the geometric coefficient. |
| EffectiveArea.EffectiveAreaNonNegative | marmots/effective_area.py:194 | The effective area is non-negative for non-negative area, dot and exit probabilities. |
| EffectiveArea.AllTriggerScenario | marmots/effective_area.py:156-194 | If every trial is in sight of every station, above threshold and exits with probability 1: pdet = 1, pexit = 1, and effective area = geometric * pexit * pdet. |
| EffectiveArea.UnreachableThresholdScenario | marmots/effective_area.py:156-194 | If no SNR exceeds the threshold: pdet = 0 and the effective area is 0 (or masked). |
| EffectiveArea.HiddenTrialNeverDetected | marmots/effective_area.py:169-188 | Under the intended masking, a trial that every station sees as invisible or above the horizontal is never detected, whatever its voltages. |
| EffectiveArea.MaskingOnlyRemovesTriggers | marmots/effective_area.py:181-186 | A masked trigger entry never exceeds the written one. They differ exactly on in-sight hidden trials that cross the threshold. |
| EffectiveArea.HiddenTrialsDetectedAsWritten | marmots/effective_area.py:181-186 | One station sees two in-sight trials above threshold: one invisible, one above the horizontal. The written code detects both; the intended masking detects neither. |

## Left out

- Loading the decay table from its data file is I/O. The table is an input sequence of `Decay` records.
- The random generators (`np.random.uniform`, `np.random.exponential`) are replaced by explicit input draws. Nothing is said about their distributions.
- Tauola.SampleRange: states only the length and sign of the ranges. The mean range of `4.9e-17 * Etau` is a property of the exponential distribution, and the model does not state it. The ValueError that numpy raises for a negative scale is modelled as None, not as an exception.
- Tauola.ShowerType: the probability that a draw is electromagnetic (`1 - Pem` for uniform draws) is not stated. Only the threshold rule is.
- Tauola.Pem requires at least one shower row. With none, `Nem / Nshowers` is 0/0, which numpy turns into NaN with a warning. `Tauola.ShowerType` and `Tauola.SampleShowerType` do model that case: no draw exceeds NaN, so every label is hadronic.
- Tauola.SampleEnergyFraction requires at least one EM and one hadronic row (`WellFormed`). `np.interp` at lines 101-102 raises on an empty table of sample points, so the code fails there; the model does not represent that error. The same requirement carries over to SampleTauEnergies, SampleShowerEnergies and SampledEnergyBounds.
- The geometry collaborators (`geometric_area`, `view_angle`, `decay_view`, `obs_zenith_azimuth`, `cartesian_to_spherical`, `decay_zenith_azimuth`, `distance_to_horizon`, `horizon_angle`) are spherical floating-point geometry. Their outputs are inputs: the ground view angle, the elevation, the distance to the decay point, and the horizon distance and angle per station.
- `antenna.Vrms`, the `voltage` model and the `tauexit` lookup are foreign physics models. They become a scalar `vrms` (required positive), one summed voltage per trial and station, and per-trial `Pexit` values with `None` for masked entries.
- The decay point, decay altitude and detector altitude are vector norms and trigonometry on floats. They enter only through the inputs above.
- EffectiveArea.Calculate: takes `N` as one positive integer. The astropy units and the `N`-as-array broadcasting are not modelled. It requires at least one station, because the code divides by `N * n_stations`.
- EffectiveArea.Calculate: None in a result field stands for a masked mean or sum. Line 198 builds a plain `np.array`, which cannot hold a mask, so that field of `calculate`'s result holds whatever plain value numpy stores for the masked constant. The model does not compute that value.
- EffectiveArea.Calculate: lines 87-93 are not part of it. Pexit is an input. The decay lengths from `sample_range` and the shower energies from `sample_shower_energies` reach it only through the per-station summed voltages. Masked `Etau` entries from the tau-exit lookup have no counterpart in the model.
- EffectiveArea.Calculate: the per-station outputs (summed voltage, elevation, distance to decay) are aligned to the full trial batch and read only where the trial is in sight of that station; the ground view angles, `area`, `dot` and `Pexit` are read at every trial. The code cuts most per-trial arguments of `voltage` to the in-sight subset first (lines 136-151).
- EffectiveArea.Calculate: the per-trial `voltageSum` assumes each voltage was computed from that trial's own exit zenith. Line 137 passes `exit_zenith` for the whole batch while the other per-trial arguments are cut to the in-sight subset, so the source does not guarantee that alignment. The `voltage` model is not part of this model, so what it does with the longer array is not known here.
- Floating point is modelled by exact reals. Rounding, NaN and infinity are not modelled, apart from the 0/0 threshold of `Tauola.ShowerType`.

## Findings

| source | as written | input that shows it | evidently intended | confidence | as-written member | corrected member |
|---|---|---|---|---|---|---|
| marmots/effective_area.py:182,186 | `Ptrig[i][in_sight][mask] = 0.0` assigns into the copy made by boolean indexing, so invisible and above-horizontal trials keep their trigger | one station, two in-sight trials with SNR 10 > 5: one behind the horizon (distance 500 > 100, elevation -0.2 < -0.1), one above the horizontal (elevation 0.3); both are detected | such trials cannot trigger (comments at lines 181 and 184) | high (not executed) | EffectiveArea.HiddenTrialsDetectedAsWritten (on EffectiveArea.Calculate) | EffectiveArea.CalculateMasked (with EffectiveArea.HiddenTrialNeverDetected) |
| marmots/tauola.py:126,132 | `Pem` is called the probability that a shower is electromagnetic, yet a draw is labelled electromagnetic when `u > Pem`, which happens with probability `1 - Pem` | a one-row table whose decay has EM fraction 0.5 and hadronic fraction 0.5: Pem = 1, yet every draw in [0, 1) is labelled hadronic | electromagnetic iff `u < Pem`, so the EM share of the labels is Pem | medium (not executed) | Tauola.ShowerTypeInverted (on Tauola.ShowerType) | Tauola.IntendedShowerType (with Tauola.ElectromagneticDraws) |
