/**
  Positive-threshold selection for one abundance component of a mixture.

  The histogram and the curves derived from it (bin centres, raw counts,
  smoothed counts, slope of the smoothed counts, peak bins) come from
  numerical libraries and are inputs here. What is modelled is the scan the
  pipeline runs over them: the negative anchor at the first highest raw
  count, the valley strategy, the inflection strategy, and the explicit
  failure each strategy meets when it has no candidate.
*/
module Threshold {
  import opened Results

  /** A peak counts as a positive peak only when its bin centre is above this. */
  const PositivePeakFloor: real := 0.3

  /** How the positive threshold of a component is chosen. */
  datatype Strategy = Valley | Inflection

  /** The histogram of one component and the curves derived from it:
      bin centres, raw counts, the smoothed counts, the slope of the smoothed
      counts, and the bins the peak finder reported, in ascending order. */
  datatype Curves = Curves(
    centres: seq<real>,
    counts: seq<real>,
    smoothed: seq<real>,
    slope: seq<real>,
    peaks: seq<nat>)

  /** All curves have one entry per bin and every peak names a bin. */
  predicate WellFormed(c: Curves)
  {
    && |c.counts| == |c.centres|
    && |c.slope| == |c.centres|
    && PeaksInRange(c.centres, c.smoothed, c.peaks)
  }

  /** Why no threshold can be chosen. */
  datatype SelectFailure =
    | EmptyHistogram      // no bin at all: the histogram is asked for zero bins
    | SingleBin           // one bin only: the slope needs at least two bins
    | NoPositivePeak      // valley: no peak lies above the positive floor
    | EmptyValleyWindow   // valley: no bin between the anchor and the main peak
    | NoPeaks             // inflection: the peak finder reported nothing
    | NoSlopeIncrease     // inflection: the slope sign never rises after the first peak

  // ---------------------------------------------------------------------
  // Negative anchor: the first bin holding the highest raw count.
  // ---------------------------------------------------------------------

  /** `k` holds the maximum of `s` and no earlier entry reaches it. */
  predicate IsFirstMax(s: seq<real>, k: nat)
  {
    && k < |s|
    && (forall j :: 0 <= j < |s| ==> s[j] <= s[k])
    && (forall j :: 0 <= j < k ==> s[j] < s[k])
  }

  /** The index of the first maximum, as `np.argmax` returns it. */
  function ArgMax(s: seq<real>): (k: nat)
    requires |s| > 0
    ensures IsFirstMax(s, k)
  {
    if |s| == 1 then 0
    else
      var k := ArgMax(s[..|s| - 1]);
      if s[|s| - 1] > s[k] then |s| - 1 else k
  }

  /** Only one index is the first maximum. */
  lemma FirstMaxUnique(s: seq<real>, k: nat, j: nat)
    requires IsFirstMax(s, k) && IsFirstMax(s, j)
    ensures k == j
  {
    assert s[j] <= s[k] && s[k] <= s[j];
  }

  /** `ArgMax` finds exactly the first maximum. */
  lemma ArgMaxIsFirstMax(s: seq<real>, k: nat)
    requires |s| > 0
    ensures ArgMax(s) == k <==> IsFirstMax(s, k)
  {
    if IsFirstMax(s, k) {
      FirstMaxUnique(s, ArgMax(s), k);
    }
  }

  /** The negative anchor: the centre of the first bin with the highest raw
      count; there is none for an empty histogram. */
  function Anchor(c: Curves): (a: Option<real>)
    requires WellFormed(c)
    ensures a.None? <==> |c.centres| == 0
    ensures a.Some? ==> exists k: nat :: IsFirstMax(c.counts, k) && a.value == c.centres[k]
  {
    if |c.counts| == 0 then None
    else
      var k := ArgMax(c.counts);
      assert IsFirstMax(c.counts, k);
      Some(c.centres[k])
  }

  // ---------------------------------------------------------------------
  // Valley strategy.
  // ---------------------------------------------------------------------

  /** Peak `k` of the list lies above the positive floor. */
  predicate Positive(centres: seq<real>, peaks: seq<nat>, k: nat)
    requires k < |peaks| && peaks[k] < |centres|
  {
    centres[peaks[k]] > PositivePeakFloor
  }

  /** Every listed peak names a bin of `centres` and of `smoothed`. */
  predicate PeaksInRange(centres: seq<real>, smoothed: seq<real>, peaks: seq<nat>)
  {
    && |smoothed| == |centres|
    && forall k :: 0 <= k < |peaks| ==> peaks[k] < |centres|
  }

  /** Among the first `n` listed peaks, position `k` is the main positive peak:
      it is positive, no positive peak is higher, and every positive peak
      listed before it is strictly lower. */
  predicate IsMainPeak(centres: seq<real>, smoothed: seq<real>, peaks: seq<nat>, n: nat, k: nat)
    requires PeaksInRange(centres, smoothed, peaks) && n <= |peaks|
  {
    && k < n
    && Positive(centres, peaks, k)
    && (forall j :: 0 <= j < n && Positive(centres, peaks, j) ==> smoothed[peaks[j]] <= smoothed[peaks[k]])
    && (forall j :: 0 <= j < k && Positive(centres, peaks, j) ==> smoothed[peaks[j]] < smoothed[peaks[k]])
  }

  /** The position, in the peak list, of the main positive peak among the
      first `n` peaks: a scan that replaces the best peak only by a strictly
      higher positive one. */
  function MainPeak(centres: seq<real>, smoothed: seq<real>, peaks: seq<nat>, n: nat): (r: Option<nat>)
    requires PeaksInRange(centres, smoothed, peaks) && n <= |peaks|
    ensures r.None? <==> forall k :: 0 <= k < n ==> !Positive(centres, peaks, k)
    ensures r.Some? ==> IsMainPeak(centres, smoothed, peaks, n, r.value)
  {
    if n == 0 then None
    else
      var best := MainPeak(centres, smoothed, peaks, n - 1);
      var p := peaks[n - 1];
      if Positive(centres, peaks, n - 1) && (best.None? || smoothed[p] > smoothed[peaks[best.value]])
      then Some(n - 1)
      else best
  }

  /** Only one position is the main positive peak. */
  lemma MainPeakUnique(centres: seq<real>, smoothed: seq<real>, peaks: seq<nat>, n: nat, k: nat, j: nat)
    requires PeaksInRange(centres, smoothed, peaks) && n <= |peaks|
    requires IsMainPeak(centres, smoothed, peaks, n, k) && IsMainPeak(centres, smoothed, peaks, n, j)
    ensures k == j
  {
  }

  /** Bin `j` lies in the window `[lo, hi)`. */
  predicate InWindow(centres: seq<real>, lo: real, hi: real, j: nat)
    requires j < |centres|
  {
    lo <= centres[j] < hi
  }

  /** Among the first `n` bins, bin `v` is the valley of the window `[lo, hi)`:
      it lies in the window, no bin of the window is lower, and every window
      bin before it is strictly higher. */
  predicate IsValley(centres: seq<real>, smoothed: seq<real>, lo: real, hi: real, n: nat, v: nat)
    requires |smoothed| == |centres| && n <= |centres|
  {
    && v < n
    && InWindow(centres, lo, hi, v)
    && (forall j :: 0 <= j < n && InWindow(centres, lo, hi, j) ==> smoothed[v] <= smoothed[j])
    && (forall j :: 0 <= j < v && InWindow(centres, lo, hi, j) ==> smoothed[v] < smoothed[j])
  }

  /** The first bin of lowest smoothed count among the first `n` bins whose
      centre lies in `[lo, hi)`; none when the window holds no bin. */
  function ValleyFloor(centres: seq<real>, smoothed: seq<real>, lo: real, hi: real, n: nat): (r: Option<nat>)
    requires |smoothed| == |centres| && n <= |centres|
    ensures r.None? <==> forall j :: 0 <= j < n ==> !InWindow(centres, lo, hi, j)
    ensures r.Some? ==> IsValley(centres, smoothed, lo, hi, n, r.value)
  {
    if n == 0 then None
    else
      var best := ValleyFloor(centres, smoothed, lo, hi, n - 1);
      if InWindow(centres, lo, hi, n - 1) && (best.None? || smoothed[n - 1] < smoothed[best.value])
      then Some(n - 1)
      else best
  }

  /** Only one bin is the valley of a window. */
  lemma ValleyUnique(centres: seq<real>, smoothed: seq<real>, lo: real, hi: real, n: nat, v: nat, w: nat)
    requires |smoothed| == |centres| && n <= |centres|
    requires IsValley(centres, smoothed, lo, hi, n, v) && IsValley(centres, smoothed, lo, hi, n, w)
    ensures v == w
  {
  }

  /** The valley strategy: the bin of the lowest smoothed count between the
      negative anchor and the main positive peak. */
  function ValleyBin(c: Curves): (r: Result<nat, SelectFailure>)
    requires WellFormed(c)
    ensures r.Ok? ==> r.value < |c.centres|
    ensures r.Err? ==> r.error in {EmptyHistogram, SingleBin, NoPositivePeak, EmptyValleyWindow}
  {
    if |c.counts| == 0 then Err(EmptyHistogram)
    else if |c.counts| == 1 then Err(SingleBin)
    else
      var anchor := Anchor(c).value;
      match MainPeak(c.centres, c.smoothed, c.peaks, |c.peaks|)
      case None => Err(NoPositivePeak)
      case Some(k) =>
        match ValleyFloor(c.centres, c.smoothed, anchor, c.centres[c.peaks[k]], |c.centres|)
        case None => Err(EmptyValleyWindow)
        case Some(v) => Ok(v)
  }

  // ---------------------------------------------------------------------
  // Inflection strategy.
  // ---------------------------------------------------------------------

  /** The sign of a slope value, as `np.sign`. */
  function Sign(v: real): (s: int)
    ensures s == 1 <==> v > 0.0
    ensures s == -1 <==> v < 0.0
    ensures s == 0 <==> v == 0.0
  {
    if v > 0.0 then 1 else if v < 0.0 then -1 else 0
  }

  /** The slope sign rises from bin `b` to bin `b + 1`: falling to flat,
      falling to rising, or flat to rising. */
  predicate SignRises(slope: seq<real>, b: nat)
    requires b + 1 < |slope|
  {
    Sign(slope[b + 1]) > Sign(slope[b])
  }

  /** `b` is the first bin at or after `p` where the slope sign rises. */
  predicate IsFirstRise(slope: seq<real>, p: nat, b: nat)
  {
    && p <= b
    && b + 1 < |slope|
    && SignRises(slope, b)
    && (forall j :: p <= j < b ==> !SignRises(slope, j))
  }

  /** The first bin at or after `p` where the slope sign rises. */
  function FirstSignRise(slope: seq<real>, p: nat): (r: Option<nat>)
    ensures r.None? <==> forall j :: p <= j && j + 1 < |slope| ==> !SignRises(slope, j)
    ensures r.Some? ==> IsFirstRise(slope, p, r.value)
    decreases |slope| - p
  {
    if p + 1 >= |slope| then None
    else if SignRises(slope, p) then Some(p)
    else FirstSignRise(slope, p + 1)
  }

  /** Only one bin is the first rise after `p`. */
  lemma FirstRiseUnique(slope: seq<real>, p: nat, b: nat, d: nat)
    requires IsFirstRise(slope, p, b) && IsFirstRise(slope, p, d)
    ensures b == d
  {
  }

  /** The inflection strategy: the first rise of the slope sign at or after
      the first reported peak. */
  function InflectionBin(c: Curves): (r: Result<nat, SelectFailure>)
    requires WellFormed(c)
    ensures r.Ok? ==> r.value < |c.centres|
    ensures r.Err? ==> r.error in {EmptyHistogram, SingleBin, NoPeaks, NoSlopeIncrease}
  {
    if |c.counts| == 0 then Err(EmptyHistogram)
    else if |c.counts| == 1 then Err(SingleBin)
    else if |c.peaks| == 0 then Err(NoPeaks)
    else
      match FirstSignRise(c.slope, c.peaks[0])
      case None => Err(NoSlopeIncrease)
      case Some(b) => Ok(b)
  }

  // ---------------------------------------------------------------------
  // Threshold.
  // ---------------------------------------------------------------------

  /** The bin whose centre is the positive threshold. */
  function ThresholdBin(c: Curves, s: Strategy): (r: Result<nat, SelectFailure>)
    requires WellFormed(c)
    ensures r.Ok? ==> r.value < |c.centres|
  {
    match s
    case Valley => ValleyBin(c)
    case Inflection => InflectionBin(c)
  }

  /** The positive threshold: the centre of the chosen bin. */
  function SelectThreshold(c: Curves, s: Strategy): (r: Result<real, SelectFailure>)
    requires WellFormed(c)
    ensures r.Ok? <==> ThresholdBin(c, s).Ok?
    ensures r.Ok? ==> r.value == c.centres[ThresholdBin(c, s).value]
    ensures r.Err? ==> r.error == ThresholdBin(c, s).error
  {
    match ThresholdBin(c, s)
    case Err(f) => Err(f)
    case Ok(b) => Ok(c.centres[b])
  }

  /** A histogram without bins fails either strategy before anything else,
      and one with a single bin fails it next, when the slope is taken. */
  lemma TooFewBinsFail(c: Curves, s: Strategy)
    requires WellFormed(c)
    ensures SelectThreshold(c, s) == Err(EmptyHistogram) <==> |c.centres| == 0
    ensures SelectThreshold(c, s) == Err(SingleBin) <==> |c.centres| == 1
  {
  }

  /** The valley strategy fails for want of a positive peak exactly when the
      histogram has bins but no listed peak lies above the positive floor. */
  lemma ValleyNeedsPositivePeak(c: Curves)
    requires WellFormed(c)
    ensures ValleyBin(c) == Err(NoPositivePeak) <==>
              |c.centres| > 1 && forall k :: 0 <= k < |c.peaks| ==> !Positive(c.centres, c.peaks, k)
  {
  }

  /** With the anchor at first maximum `a` and the main positive peak at
      position `k`, the valley strategy picks exactly the valley of the window
      from the anchor up to (not including) the main peak's centre, and, once
      there are at least two bins, fails exactly when that window holds no bin. */
  lemma ValleyChoice(c: Curves, a: nat, k: nat, v: nat)
    requires WellFormed(c)
    requires IsFirstMax(c.counts, a)
    requires IsMainPeak(c.centres, c.smoothed, c.peaks, |c.peaks|, k)
    ensures ValleyBin(c) == Ok(v) <==>
              IsValley(c.centres, c.smoothed, c.centres[a], c.centres[c.peaks[k]], |c.centres|, v)
    ensures ValleyBin(c) == Err(EmptyValleyWindow) <==>
              |c.centres| > 1 && forall j :: 0 <= j < |c.centres| ==> !InWindow(c.centres, c.centres[a], c.centres[c.peaks[k]], j)
  {
    FirstMaxUnique(c.counts, ArgMax(c.counts), a);
    var m := MainPeak(c.centres, c.smoothed, c.peaks, |c.peaks|);
    MainPeakUnique(c.centres, c.smoothed, c.peaks, |c.peaks|, m.value, k);
    var lo, hi := c.centres[a], c.centres[c.peaks[k]];
    var f := ValleyFloor(c.centres, c.smoothed, lo, hi, |c.centres|);
    if IsValley(c.centres, c.smoothed, lo, hi, |c.centres|, v) {
      ValleyUnique(c.centres, c.smoothed, lo, hi, |c.centres|, f.value, v);
    }
  }

  /** The inflection strategy picks exactly the first rise of the slope sign
      at or after the first listed peak. */
  lemma InflectionChoice(c: Curves, b: nat)
    requires WellFormed(c)
    ensures InflectionBin(c) == Ok(b) <==> |c.peaks| > 0 && IsFirstRise(c.slope, c.peaks[0], b)
  {
    if |c.peaks| > 0 && IsFirstRise(c.slope, c.peaks[0], b) {
      var r := FirstSignRise(c.slope, c.peaks[0]);
      FirstRiseUnique(c.slope, c.peaks[0], r.value, b);
    }
  }

  /** Given at least two bins, the inflection strategy fails without peaks,
      or when the slope sign never rises at or after the first listed peak. */
  lemma InflectionFailures(c: Curves)
    requires WellFormed(c)
    ensures InflectionBin(c) == Err(NoPeaks) <==> |c.centres| > 1 && |c.peaks| == 0
    ensures InflectionBin(c) == Err(NoSlopeIncrease) <==>
              |c.centres| > 1 && |c.peaks| > 0 && forall j :: c.peaks[0] <= j && j + 1 < |c.slope| ==> !SignRises(c.slope, j)
  {
  }
}
