# OC mixture unmixing — a Dafny model of the pure core

`src/oc_mix_unmixing.py` is one long function, `oc_unmixing`, that processes
a flow-cytometry experiment in five steps:

1. it estimates the autofluorescence of every channel (the *noise vector*) from the unstained population;
2. it builds a *reference matrix* from three single-stain controls (ATTO488, ATTO488/647 FRET, ATTO647);
3. it unmixes every cell of one or two triple-stained mixtures into abundances;
4. for each abundance component after the first, it chooses a *positive threshold* from a histogram of that component;
5. it gates the cells at or above the threshold as positive.

This project models the deterministic, sequence-based parts of that function
over exact reals and proves their contracts:

| module (file) | what it models |
|---|---|
| `Results` (results.dfy) | `Option` / `Result` values that stand where the source raises an exception |
| `Sorting` (sorting.dfy) | `sorted(...)`: insertion sort; a sorted arrangement is determined by its multiset |
| `Stats` (stats.dfy) | `statistics.median` over the sorted column (middle element, or mean of the two middle ones); `None` for an empty column |
| `Matrices` (matrices.dfy) | populations as matrices of cells × channels; column selection `m[:, i]` |
| `Baseline` (baseline.dfy) | the per-channel median of the unstained population: the noise vector |
| `Rounding` (rounding.dfy) | `np.round(v, decimals=1)`: nearest tenth, ties to even, on exact reals |
| `Reference` (reference.dfy) | restriction of each control to its positive rows (Python negative indices wrap), noise subtraction without clipping, rounded per-channel medians, assembly of the channel × 4 matrix `[noise, ATTO488, FRET, ATTO647]` |
| `Threshold` (threshold.dfy) | the negative anchor (first highest raw count), the valley strategy, the inflection strategy, each with an explicit failure where the source crashes |
| `Gating` (gating.dfy) | the closed-threshold gate `RF >= t` as an ascending index list, and the gates of components 1..3 keyed by component |
| `Pipeline` (pipeline.dfy) | one run: noise, then reference, then the first mixture, then the optional second one. The first failure ends the run. Also the choice of strategies per component and mixture, and the experiment-directory test |

The numerical library steps are **inputs**: the abundance matrix (the NNLS
solve) and, per component, the histogram curves. A `Threshold.Curves` value
holds:
- the bin centres `x` and raw counts `y`;
- the Gaussian-smoothed counts and their `np.gradient` slope;
- the `find_peaks` indices.

Where the source raises, the model returns a typed failure:
- `statistics.median` of an empty column, with the empty unstained population (`Pipeline.Failure.EmptyUnstained`);
- a control with no positive cell (`Reference.ReferenceFailure.EmptyControl`). `np.array([])` at line 38 has shape `(0,)`, so with two or more channels `value - noise` at line 43 fails to broadcast, and with one channel `pure_FI[:, i]` at line 46 has too many indices. The median is never reached;
- an out-of-range positive index (`IndexOutOfRange`);
- a mixture with no cell, where `scale_x.shape[1]` fails (`EmptyMixture`);
- a threshold that cannot be chosen (`Undetermined`), for any of these reasons:
  - `plt.hist` asked for no bins at line 87, when `bins_num` at line 79 rounds to 0;
  - `np.gradient` of a one-bin histogram;
  - a `None` main peak;
  - `min` of an empty window;
  - `peak[0]` of no peaks;
  - `[0][0]` of no sign rise.

Where code and description differ, the model follows the code:
- **Inflection rule.** The rule is "first `b >= peak[0]` with `sign(slope[b+1]) > sign(slope[b])`" (`np.diff(np.sign(...)) > 0`). It fires on falling-to-flat, falling-to-rising and flat-to-rising, not only on "negative to non-negative".
- **Window bounds.** The valley window is `anchor <= x[n] < x[main]`, closed below and open above. Its floor is the *first* bin of least smoothed count, as `min(..., key=...)` returns it.
- **Main peak.** It is the listed peak above `x = 0.3` with the highest smoothed count, the first one on ties: a later peak replaces it only with a strictly higher count.
- **Error ordering.** A failing control index aborts before any median is taken, because every control is restricted before any spectrum is computed. The controls are taken in the order ATTO488, FRET, ATTO647; see Left out for this assumption. A failure in any step ends the whole run.
- **Empty controls.** An empty positive-index list fails only when there is at least one channel. With no channel the median loop never runs.

## Model

| member | source | states |
|---|---|---|
| `Sorting.Insert` | src/oc_mix_unmixing.py:29 | inserting into a sorted column keeps it sorted and adds exactly one copy of the value to its multiset |
| `Sorting.Sort` | src/oc_mix_unmixing.py:29 | `sorted` returns an ascending permutation of the column |
| `Sorting.SortedUnique` | src/oc_mix_unmixing.py:29 | two ascending sequences with the same multiset of values are identical, so the sorted column is unique |
| `Sorting.SortDeterminedByMultiset` | src/oc_mix_unmixing.py:29 | the sorted column depends only on the multiset of the input, not on the order of the cells |
| `Sorting.ImagePermutation` | src/oc_mix_unmixing.py:28 | applying the same per-row map to permuted rows yields permuted results |
| `Stats.Median` | src/oc_mix_unmixing.py:29 | the median exists exactly when the column is non-empty (an empty column raises) |
| `Stats.MedianPermutationInvariant` | src/oc_mix_unmixing.py:29 | the median of a column does not depend on the order of its values |
| `Stats.MedianWithinRange` | src/oc_mix_unmixing.py:47 | every median lies between the least and the greatest value of its column, for odd and even counts |
| `Stats.MedianBalanced` | src/oc_mix_unmixing.py:29 | at most half of the values lie strictly below the median and at most half strictly above it |
| `Stats.MedianShift` | src/oc_mix_unmixing.py:43-47 | subtracting a constant from every value subtracts it from the median; the subtraction loses nothing |
| `Matrices.Column` | src/oc_mix_unmixing.py:28 | `m[:, i]` holds one entry per cell, the cell's value in channel `i`, in row order |
| `Matrices.ColumnPermutation` | src/oc_mix_unmixing.py:46 | permuting the cells permutes every channel column |
| `Baseline.ChannelMedians` | src/oc_mix_unmixing.py:44-48 | one median per channel; failure exactly when there is a channel and no cell |
| `Baseline.NoiseVector` | src/oc_mix_unmixing.py:26-31 | the noise vector has one entry per channel, entry `i` is the median of unstained column `i`, and it exists exactly unless there is a channel and no unstained cell |
| `Baseline.ChannelMediansRowOrderInvariant` | src/oc_mix_unmixing.py:45-47 | reordering the cells of a population leaves all its channel medians unchanged |
| `Baseline.NoiseRowOrderInvariant` | src/oc_mix_unmixing.py:26-31 | the noise vector depends only on the multiset of unstained cells |
| `Baseline.NoiseWithinChannelRange` | src/oc_mix_unmixing.py:29-30 | every noise entry lies between the least and greatest unstained value of its channel |
| `Rounding.RoundHalfEven` | src/oc_mix_unmixing.py:48 | the result is the integer nearest to the input, a tie going to the even neighbour |
| `Rounding.Round1` | src/oc_mix_unmixing.py:48 | the result is a whole number `k` of tenths with `k` the integer nearest to ten times the value, a tie going to the even one; it moves the value by at most 0.05 |
| `Rounding.Round1IsNearestTenth` | src/oc_mix_unmixing.py:48 | the rounding is the tenth `k / 10` exactly when `k` is nearest to ten times the value under the ties-to-even rule |
| `Rounding.RoundHalfEvenIsNearest` | src/oc_mix_unmixing.py:48 | the nearest-integer rule has exactly one answer, and the rounding gives it |
| `Rounding.Round1OfTenths` | src/oc_mix_unmixing.py:48 | a value that is already a whole number of tenths is left unchanged |
| `Rounding.Round1Idempotent` | src/oc_mix_unmixing.py:48 | rounding a rounded median again changes nothing |
| `Rounding.Round1Monotone` | src/oc_mix_unmixing.py:48 | rounding keeps the order of two medians |
| `Reference.Resolve` | src/oc_mix_unmixing.py:37 | `value[each_ind]` names row `i` for `0 <= i < n` and row `n + i` for `-n <= i < 0` |
| `Reference.RestrictRows` | src/oc_mix_unmixing.py:35-38 | the restriction holds exactly the rows named by the index list, in list order, one per index; it fails exactly when some index is out of range, and names the first such index |
| `Reference.Restrict` | src/oc_mix_unmixing.py:33-38 | restricting a control succeeds exactly when all its indices are valid, and an index failure names the control |
| `Reference.Kept` | src/oc_mix_unmixing.py:36-38 | the kept cells of a control are its rows at the listed positions, in list order |
| `Reference.SubtractNoise` | src/oc_mix_unmixing.py:43 | `pure[r][i] == row[r][i] - noise[i]` for every cell and channel, with no clipping |
| `Reference.Spectrum` | src/oc_mix_unmixing.py:41-49 | a control spectrum has one entry per channel, each the rounded median of that channel after noise subtraction; it fails exactly when there is a channel and no kept cell |
| `Reference.Assemble` | src/oc_mix_unmixing.py:51-59 | row `i` of the reference matrix is `[noise[i], ATTO488[i], FRET[i], ATTO647[i]]` |
| `Reference.SubtractedColumn` | src/oc_mix_unmixing.py:43-46 | channel `i` of the noise-subtracted cells is channel `i` of the cells shifted down by `noise[i]` |
| `Reference.ControlColumn` | src/oc_mix_unmixing.py:46 | the column whose median is a reference entry has one value per listed positive cell |
| `Reference.BuildReference` | src/oc_mix_unmixing.py:33-59 | a built reference is channel × 4 and its column 0 is the unrounded noise vector |
| `Reference.ReferenceSucceedsExactly` | src/oc_mix_unmixing.py:33-49 | the reference builds exactly when every index is valid and, if there is a channel, every control keeps at least one cell |
| `Reference.ReferenceUnfolds` | src/oc_mix_unmixing.py:51-59 | a successful build is the assembly of the three control spectra, in the order ATTO488, FRET, ATTO647 |
| `Reference.SpectrumEntry` | src/oc_mix_unmixing.py:44-48 | entry `i` of a control spectrum is the rounded median of channel `i` of its kept cells less the noise |
| `Reference.ReferenceColumns` | src/oc_mix_unmixing.py:51-59 | every row of a built reference is the noise followed by the three rounded control medians of that channel |
| `Reference.ReferenceIndexFailure` | src/oc_mix_unmixing.py:34-37 | an index failure names the first control, in the order ATTO488, FRET, ATTO647, holding an invalid index, and the first such index; earlier controls had valid indices |
| `Reference.ReferenceEmptyFailure` | src/oc_mix_unmixing.py:41-47 | an empty-control failure arises only after every index was valid, with at least one channel, and names the first control without kept cells |
| `Reference.ControlColumnIsShift` | src/oc_mix_unmixing.py:43-47 | the median after noise subtraction is the raw channel median less the noise |
| `Reference.SpectrumEntryIsShiftedMedian` | src/oc_mix_unmixing.py:43-48 | a spectrum entry is the rounding of the raw median of the kept cells less the channel noise |
| `Reference.ControlColumnPermutation` | src/oc_mix_unmixing.py:36-47 | reordering a positive-index list leaves the median of every control column unchanged |
| `Reference.ReferencePositivesOrderInvariant` | src/oc_mix_unmixing.py:33-59 | reordering the positive-index lists changes neither whether the reference builds nor the matrix built |
| `Threshold.ArgMax` | src/oc_mix_unmixing.py:103 | `np.argmax` returns the first index holding the maximum count: nothing is larger and nothing earlier is equal |
| `Threshold.ArgMaxIsFirstMax` | src/oc_mix_unmixing.py:103 | exactly one index is the first maximum, and `ArgMax` returns it |
| `Threshold.Anchor` | src/oc_mix_unmixing.py:100-104 | the negative anchor is the centre of the first bin with the highest raw count; there is none without bins |
| `Threshold.MainPeak` | src/oc_mix_unmixing.py:119-124 | the main peak is positive (`x > 0.3`), no positive peak is higher, and every earlier positive peak is strictly lower; none exactly when no peak is positive |
| `Threshold.ValleyFloor` | src/oc_mix_unmixing.py:128-134 | the valley is a bin with `lo <= x < hi`, no window bin is lower, and every earlier window bin is strictly higher; none exactly when the window is empty |
| `Threshold.ValleyBin` | src/oc_mix_unmixing.py:117-136 | the valley strategy names a bin of the histogram, or fails for want of bins, of a positive peak, or of a window bin |
| `Threshold.Sign` | src/oc_mix_unmixing.py:139 | `np.sign` is 1, -1 or 0 exactly for a positive, negative or zero slope |
| `Threshold.FirstSignRise` | src/oc_mix_unmixing.py:139 | the result is the first bin at or after the start where the slope sign rises; none exactly when it never rises |
| `Threshold.InflectionBin` | src/oc_mix_unmixing.py:139 | the inflection strategy names a bin of the histogram, or fails for want of bins, of peaks, or of a sign rise |
| `Threshold.ThresholdBin` | src/oc_mix_unmixing.py:117-139 | the chosen threshold bin is a bin of the histogram |
| `Threshold.SelectThreshold` | src/oc_mix_unmixing.py:141 | the positive threshold is the centre of the chosen bin, and fails exactly when the strategy fails, with its reason |
| `Threshold.TooFewBinsFail` | src/oc_mix_unmixing.py:79-110 | either strategy fails first with no bin (where `plt.hist` is asked for zero bins) and next with a single bin (at the slope) |
| `Threshold.ValleyNeedsPositivePeak` | src/oc_mix_unmixing.py:119-130 | the valley strategy fails for want of a positive peak exactly when there are bins but no peak centre above 0.3 |
| `Threshold.ValleyChoice` | src/oc_mix_unmixing.py:128-136 | given the anchor and main peak, the valley strategy picks exactly the first lowest bin of `[anchor, x[main])` and fails exactly when that window is empty |
| `Threshold.InflectionChoice` | src/oc_mix_unmixing.py:249 | the inflection strategy picks bin `b` exactly when `b` is the first sign rise at or after the first peak |
| `Threshold.InflectionFailures` | src/oc_mix_unmixing.py:139 | with two or more bins, the inflection strategy fails exactly when there is no peak, or when the slope sign never rises from the first peak on |
| `Gating.Gate` | src/oc_mix_unmixing.py:143-145 | the gate is strictly ascending and holds exactly the cells with `RF >= t`, so a cell at the threshold is positive |
| `Gating.GateIsUnique` | src/oc_mix_unmixing.py:143-148 | any ascending list of exactly the cells at or above the threshold is the gate |
| `Gating.GateThresholdMonotone` | src/oc_mix_unmixing.py:252-254 | raising the threshold yields a subset of the positive cells |
| `Gating.GateCountMonotone` | src/oc_mix_unmixing.py:143-147 | raising the threshold never increases the number of positive cells |
| `Gating.GateAt` | src/oc_mix_unmixing.py:141-148 | the gate of a component holds its threshold and exactly the cells whose abundance in that component reaches it |
| `Gating.GateFrom` | src/oc_mix_unmixing.py:76-148 | scanning components in ascending order succeeds exactly when each has a threshold; then it holds one gate per scanned component; otherwise it names the first failing component, all earlier components having succeeded |
| `Gating.GateMixture` | src/oc_mix_unmixing.py:76-82 | the gates of a mixture are keyed by components 1..3 only; component 0 is never gated |
| `Gating.GateMixtureOutcome` | src/oc_mix_unmixing.py:76-148 | a mixture is gated exactly when every component 1..3 has a threshold, and then component `k` holds its threshold and exactly the cells at or above it |
| `Gating.GateMixtureFailure` | src/oc_mix_unmixing.py:117-141 | a gating failure names the first component whose threshold cannot be chosen, with the strategy's reason |
| `Pipeline.PanelAsWritten` | src/oc_mix_unmixing.py:117 | the code sets the experiment apart only when the whole directory argument equals `paper_exp042224` |
| `Pipeline.DriverPathMissesSetApart` | src/oc_mix_unmixing.py:312 | the path the driver passes for that experiment, `../paper_exp042224`, is not set apart by the code as written |
| `Pipeline.LastComponent` | src/oc_mix_unmixing.py:117 | the last path component is the suffix free of `/` that is preceded by `/` or is the whole path |
| `Pipeline.LastComponentAfterSlash` | src/oc_mix_unmixing.py:117 | the last component of `parent/name` is `name` |
| `Pipeline.DirectoryPanel` | src/oc_mix_unmixing.py:116-117 | an experiment is set apart exactly when its directory's own name is `paper_exp042224` |
| `Pipeline.DirectoryPanelRecognisesSetApart` | src/oc_mix_unmixing.py:116-117 | the set-apart experiment is recognised under any parent directory |
| `Pipeline.DriverPathRecognised` | src/oc_mix_unmixing.py:312 | the corrected test sets apart both `paper_exp042224` and the driver's `../paper_exp042224` |
| `Pipeline.ExperimentIn` | src/oc_mix_unmixing.py:116-117 | the panel of an experiment's inputs is set apart exactly when its directory's name matches |
| `Pipeline.Mix1Plan` | src/oc_mix_unmixing.py:117 | the first mixture uses the valley for component 1 of a standard experiment, and the inflection for every other component |
| `Pipeline.Mix2Plan` | src/oc_mix_unmixing.py:249 | the second mixture uses the inflection for every component |
| `Pipeline.GateMix` | src/oc_mix_unmixing.py:73-76 | a mixture with no cell fails before any gate; otherwise its outcome is its gating, with a failure tagged by the mixture |
| `Pipeline.Noise` | src/oc_mix_unmixing.py:26-31 | the run's noise step succeeds exactly when the noise vector exists, and fails as an empty unstained population |
| `Pipeline.ReferenceOf` | src/oc_mix_unmixing.py:40-59 | the run's reference is the built reference with one-decimal rounding, and its failure carries the builder's reason |
| `Pipeline.Run` | src/oc_mix_unmixing.py:18-257 | a successful run yields a channel × 4 reference, gates keyed by components 1..3, and second-mixture gates exactly when there is a second mixture |
| `Pipeline.RunOutputs` | src/oc_mix_unmixing.py:26-257 | a successful run's outputs are the noise vector, the reference built from it, and each mixture's gating under its strategies |
| `Pipeline.RunFailureOrder` | src/oc_mix_unmixing.py:26-257 | a run fails at the first failing step in the order noise, reference, first mixture, second mixture, and every earlier step succeeded |
| `Pipeline.StrategiesPerComponent` | src/oc_mix_unmixing.py:117-139 | component 1 of the first mixture of a standard experiment is gated at the valley; every other component uses the inflection |
| `Pipeline.RunGatesMix1` | src/oc_mix_unmixing.py:141-148 | each first-mixture gate of a successful run holds the threshold its strategy chose and exactly the cells reaching it |
| `Pipeline.RunGatesMix2` | src/oc_mix_unmixing.py:249-257 | each second-mixture gate of a successful run holds the inflection threshold and exactly the cells reaching it |

## Left out

- **File loading and saving** (`np.load`, `np.save`) and the hard-coded driver calls. The model takes the loaded arrays as inputs and returns what would be saved. Two consequences are not modelled:
  - The first mixture's gating is written before the second mixture is processed, so a failure in the second mixture leaves that file behind. `Pipeline.RunFailureOrder` states that the first mixture succeeded in that case, but the saved file itself is not modelled.
  - The second mixture's gating is re-saved after every component, so a failure there leaves the components before it on disk.
- **Plotting and `print` output.** They are presentation only.
- **Dictionary keys and their order.** The dictionary of controls is modelled as one field per control. The loops at lines 34 and 41 visit the controls in the insertion order of the loaded dictionary, which the source does not fix. The model assumes that the keys left after the pops at lines 18-24 are exactly the three controls, stored in the order ATTO488, FRET, ATTO647. `Reference.ReferenceIndexFailure` and `Reference.ReferenceEmptyFailure` name the first failing control under that assumption. A different stored order can change which control a failure names, but not whether the build fails. Not modelled: a key that is in the controls but missing from the positive-index dictionary, which raises `KeyError` at line 36, and any extra key, which would be restricted too.
- **The NNLS solve and its rounding to four decimals.** They are a foreign floating-point solver. The abundance matrix, already rounded, is an input.
- **The histogram and the curves derived from it.** This covers:
  - the histogram itself (`plt.hist`, bin edges, bin width, `bins_num = round((max - min) * 100)`);
  - `gaussian_filter`;
  - `np.gradient`;
  - `find_peaks` with its prominence of `max_height * 0.001`, run on the counts after `y[0] = 0`.

  These are float library routines, so their outputs are inputs in `Threshold.Curves`. The anchor is taken from the raw counts before `y[0]` is zeroed. The peak list is taken as the finder returns it.
- **IEEE floating point.** All values are exact reals. `np.round(v, 1)` is modelled as ties-to-even rounding of the exact value (`Rounding.Round1`). `Reference` takes the rounding as a parameter, and the run passes `Round1`.
- **`locals()` tests.** The test for a second mixture becomes the optional `mix2` field.
- **Experiment directory test.** The directory comparison is modelled as the `Panel` of the experiment, with `ExperimentIn` deciding it by the directory's own name. See Findings.
- **Exception types.** The model keeps the step and the reason of a failure, not the Python exception type. For example, an empty control fails with a broadcasting `ValueError` or an `IndexError` depending on the channel count; both become `EmptyControl`.

## Findings

| source | as written | input that shows it | evidently intended | confidence | as-written member | corrected member |
|---|---|---|---|---|---|---|
| src/oc_mix_unmixing.py:117 | `experiment_dir != 'paper_exp042224'` compares the whole directory argument | `experiment_dir = '../paper_exp042224'`, the value the driver passes at line 312: the comparison holds, so component 1 of that experiment is gated at the valley | the experiment stored in directory `paper_exp042224` uses the inflection for component 1, as the comment at line 116 says | medium, not executed | `Pipeline.PanelAsWritten` (shown by `Pipeline.DriverPathMissesSetApart`) | `Pipeline.DirectoryPanel` (proved by `Pipeline.DirectoryPanelRecognisesSetApart` and `Pipeline.DriverPathRecognised`; used by `Pipeline.ExperimentIn`) |
