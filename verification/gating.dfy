/**
  Positive-cell gating of a mixture: each abundance component after the
  first is given a threshold by its strategy, and the cells whose abundance
  reaches that threshold are its positive cells.
*/
module Gating {
  import opened Results
  import opened Matrices
  import opened Threshold

  /** Every entry is smaller than the next one. */
  predicate StrictlyIncreasing(r: seq<nat>)
  {
    forall a, b :: 0 <= a < b < |r| ==> r[a] < r[b]
  }

  /** The indices, in ascending order, of the first `n` values that reach `t`. */
  function GatePrefix(v: seq<real>, t: real, n: nat): (r: seq<nat>)
    requires n <= |v|
    ensures StrictlyIncreasing(r)
    ensures forall k :: 0 <= k < |r| ==> r[k] < n
    ensures forall j: nat :: j in r <==> j < n && v[j] >= t
  {
    if n == 0 then []
    else GatePrefix(v, t, n - 1) + (if v[n - 1] >= t then [n - 1] else [])
  }

  /** The ascending indices of the cells whose abundance is at least `t`:
      a cell exactly at the threshold is positive. */
  function Gate(v: seq<real>, t: real): (r: seq<nat>)
    ensures StrictlyIncreasing(r)
    ensures forall j: nat :: j in r <==> j < |v| && v[j] >= t
  {
    GatePrefix(v, t, |v|)
  }

  /** Two non-empty ascending index lists holding the same indices start
      with the same index and continue with ascending tails holding the same indices. */
  lemma IncreasingHeadsAgree(a: seq<nat>, b: seq<nat>)
    requires StrictlyIncreasing(a) && StrictlyIncreasing(b) && |a| > 0 && |b| > 0
    requires forall j :: j in a <==> j in b
    ensures a[0] == b[0]
    ensures StrictlyIncreasing(a[1..]) && StrictlyIncreasing(b[1..])
    ensures forall j :: j in a[1..] <==> j in b[1..]
  {
    assert a[0] == b[0] by {
      assert a[0] in b;
      assert b[0] in a;
      var i :| 0 <= i < |b| && b[i] == a[0];
      var k :| 0 <= k < |a| && a[k] == b[0];
      assert b[0] <= b[i] && a[0] <= a[k];
    }
    forall j
      ensures j in a[1..] <==> j in b[1..]
    {
      if j in a[1..] {
        var k :| 1 <= k < |a| && a[k] == j;
        assert j > a[0];
        assert j in b;
        var i :| 0 <= i < |b| && b[i] == j;
        assert i != 0;
      }
      if j in b[1..] {
        var i :| 1 <= i < |b| && b[i] == j;
        assert j > b[0];
        assert j in a;
        var k :| 0 <= k < |a| && a[k] == j;
        assert k != 0;
      }
    }
  }

  /** Two ascending index lists holding the same indices are the same list. */
  lemma {:induction false} IncreasingDeterminedByElements(a: seq<nat>, b: seq<nat>)
    requires StrictlyIncreasing(a) && StrictlyIncreasing(b)
    requires forall j :: j in a <==> j in b
    ensures a == b
    decreases |a| + |b|
  {
    assert |a| > 0 ==> a[0] in b;
    assert |b| > 0 ==> b[0] in a;
    if |a| > 0 && |b| > 0 {
      IncreasingHeadsAgree(a, b);
      IncreasingDeterminedByElements(a[1..], b[1..]);
      assert a == [a[0]] + a[1..] && b == [b[0]] + b[1..];
    }
  }

  /** `Gate` is the only ascending list of exactly the cells at or above `t`. */
  lemma GateIsUnique(v: seq<real>, t: real, r: seq<nat>)
    requires StrictlyIncreasing(r)
    requires forall j: nat :: j in r <==> j < |v| && v[j] >= t
    ensures r == Gate(v, t)
  {
    IncreasingDeterminedByElements(r, Gate(v, t));
  }

  /** Raising the threshold only removes cells. */
  lemma GateThresholdMonotone(v: seq<real>, t1: real, t2: real)
    requires t1 <= t2
    ensures forall j: nat :: j in Gate(v, t2) ==> j in Gate(v, t1)
  {
  }

  /** Raising the threshold never gates more cells. */
  lemma {:induction false} GatePrefixCountMonotone(v: seq<real>, t1: real, t2: real, n: nat)
    requires t1 <= t2 && n <= |v|
    ensures |GatePrefix(v, t2, n)| <= |GatePrefix(v, t1, n)|
  {
    if n > 0 {
      GatePrefixCountMonotone(v, t1, t2, n - 1);
    }
  }

  /** Raising the threshold never gates more cells. */
  lemma GateCountMonotone(v: seq<real>, t1: real, t2: real)
    requires t1 <= t2
    ensures |Gate(v, t2)| <= |Gate(v, t1)|
  {
    GatePrefixCountMonotone(v, t1, t2, |v|);
  }

  /** The threshold of one component and the cells gated positive by it. */
  datatype ComponentGate = ComponentGate(threshold: real, positives: seq<nat>)

  /** Why a mixture could not be gated: the first component, counted from 1,
      whose threshold could not be chosen, and the reason. */
  datatype GateFailure = GateFailure(component: nat, reason: SelectFailure)

  /** The whole numbers from `lo` to `hi`, both included. */
  function Range(lo: nat, hi: nat): (ks: set<nat>)
    ensures forall k :: k in ks <==> lo <= k <= hi
    decreases hi + 1 - lo
  {
    if lo > hi then {} else {lo} + Range(lo + 1, hi)
  }

  /** All curves are well formed. */
  predicate AllWellFormed(curves: seq<Curves>)
  {
    forall k :: 0 <= k < |curves| ==> WellFormed(curves[k])
  }

  /** The threshold component `k`, counted from 1, receives from its curves
      and its strategy. */
  function ThresholdOf(curves: seq<Curves>, plan: seq<Strategy>, k: nat): (r: Result<real, SelectFailure>)
    requires |plan| == |curves| && AllWellFormed(curves) && 1 <= k <= |curves|
  {
    SelectThreshold(curves[k - 1], plan[k - 1])
  }

  /** The threshold outcomes of components 1 to `|curves|`, at positions 0 onwards. */
  function Thresholds(curves: seq<Curves>, plan: seq<Strategy>): (ts: seq<Result<real, SelectFailure>>)
    requires |plan| == |curves| && AllWellFormed(curves)
    ensures |ts| == |curves|
    ensures forall j :: 0 <= j < |ts| ==> ts[j] == ThresholdOf(curves, plan, j + 1)
  {
    seq(|curves|, j requires 0 <= j < |curves| => ThresholdOf(curves, plan, j + 1))
  }

  /** The gate of component `k` at threshold `t`: the cells whose abundance
      in that component reaches `t`. */
  function GateAt(abundance: Matrix, k: nat, t: real): (g: ComponentGate)
    requires forall r :: 0 <= r < |abundance| ==> k < |abundance[r]|
    ensures g.threshold == t
    ensures forall j: nat :: j in g.positives <==> j < |abundance| && abundance[j][k] >= t
  {
    ComponentGate(t, Gate(Column(abundance, k), t))
  }

  /** Gates for components `k + 1` up to `|ts|`, in ascending order, where
      `ts[j]` is the threshold outcome of component `j + 1`; stops at the
      first component whose threshold cannot be chosen. */
  function GateFrom(abundance: Matrix, ts: seq<Result<real, SelectFailure>>, k: nat)
    : (r: Result<map<nat, ComponentGate>, GateFailure>)
    requires IsMatrix(abundance, |ts| + 1) && k <= |ts|
    ensures r.Ok? <==> forall j :: k <= j < |ts| ==> ts[j].Ok?
    ensures r.Ok? ==> r.value.Keys == Range(k + 1, |ts|)
    ensures r.Ok? ==> forall j :: k <= j < |ts| ==> r.value[j + 1] == GateAt(abundance, j + 1, ts[j].value)
    ensures r.Err? ==> && k < r.error.component <= |ts|
                       && ts[r.error.component - 1] == Err(r.error.reason)
                       && forall j :: k <= j < r.error.component - 1 ==> ts[j].Ok?
    decreases |ts| - k
  {
    if k == |ts| then Ok(map[])
    else
      match ts[k]
      case Err(f) => Err(GateFailure(k + 1, f))
      case Ok(t) =>
        match GateFrom(abundance, ts, k + 1)
        case Err(e) => Err(e)
        case Ok(rest) => Ok(rest[k + 1 := GateAt(abundance, k + 1, t)])
  }

  /** The gates of a mixture: one per component after the first, keyed by
      component, or the first component whose threshold cannot be chosen. */
  function GateMixture(abundance: Matrix, curves: seq<Curves>, plan: seq<Strategy>)
    : (r: Result<map<nat, ComponentGate>, GateFailure>)
    requires IsMatrix(abundance, |curves| + 1) && |plan| == |curves| && AllWellFormed(curves)
    ensures r.Ok? ==> r.value.Keys == Range(1, |curves|)
  {
    GateFrom(abundance, Thresholds(curves, plan), 0)
  }

  /** Gating succeeds exactly when every gated component has a threshold;
      each gate then holds that threshold and exactly the cells at or above
      it, in ascending order. */
  lemma GateMixtureOutcome(abundance: Matrix, curves: seq<Curves>, plan: seq<Strategy>, k: nat)
    requires IsMatrix(abundance, |curves| + 1) && |plan| == |curves| && AllWellFormed(curves)
    requires 1 <= k <= |curves|
    ensures GateMixture(abundance, curves, plan).Ok? <==>
              forall j :: 1 <= j <= |curves| ==> ThresholdOf(curves, plan, j).Ok?
    ensures GateMixture(abundance, curves, plan).Ok? ==>
              && GateMixture(abundance, curves, plan).value[k].threshold
                 == ThresholdOf(curves, plan, k).value
              && GateMixture(abundance, curves, plan).value[k].positives
                 == Gate(Column(abundance, k), ThresholdOf(curves, plan, k).value)
  {
    var ts := Thresholds(curves, plan);
    assert (forall j :: 0 <= j < |ts| ==> ts[j].Ok?) <==>
           (forall j :: 1 <= j <= |curves| ==> ThresholdOf(curves, plan, j).Ok?) by {
      if forall j :: 0 <= j < |ts| ==> ts[j].Ok? {
        forall j | 1 <= j <= |curves|
          ensures ThresholdOf(curves, plan, j).Ok?
        {
          assert ts[j - 1].Ok?;
        }
      }
    }
    assert ts[k - 1] == ThresholdOf(curves, plan, k);
  }

  /** A failure names the first component, counted from 1, whose threshold
      cannot be chosen, with the reason its strategy gave. */
  lemma GateMixtureFailure(abundance: Matrix, curves: seq<Curves>, plan: seq<Strategy>, f: GateFailure)
    requires IsMatrix(abundance, |curves| + 1) && |plan| == |curves| && AllWellFormed(curves)
    requires GateMixture(abundance, curves, plan) == Err(f)
    ensures 1 <= f.component <= |curves|
    ensures ThresholdOf(curves, plan, f.component) == Err(f.reason)
    ensures forall j :: 1 <= j < f.component ==> ThresholdOf(curves, plan, j).Ok?
  {
    var ts := Thresholds(curves, plan);
    forall j | 1 <= j < f.component
      ensures ThresholdOf(curves, plan, j).Ok?
    {
      assert ts[j - 1].Ok?;
    }
  }
}
