/**
  One run of the unmixing pipeline: the noise vector of the unstained
  population, the reference matrix of the single-stain controls, and the
  positive-cell gates of the first mixture and, when present, the second.
  The abundance matrices and histogram curves of the mixtures come from
  numerical libraries and are inputs.
*/
module Pipeline {
  import opened Results
  import opened Matrices
  import opened Baseline
  import opened Reference
  import opened Rounding
  import opened Threshold
  import opened Gating

  /** Whether the experiment gates the first mixture as usual (`Standard`) or
      is the one experiment whose directory name is set apart (`Anomalous`),
      which uses the inflection strategy for every component. */
  datatype Panel = Standard | Anomalous

  /** The name of the experiment directory that is set apart. */
  const SetApartExperiment: string := "paper_exp042224"

  /** The panel as the source decides it: the whole directory argument is
      compared with the set-apart name, so a path leading to that directory
      does not match. */
  function PanelAsWritten(dir: string): (p: Panel)
    ensures p == Anomalous <==> dir == SetApartExperiment
  {
    if dir == SetApartExperiment then Anomalous else Standard
  }

  /** The last `/`-separated component of a path: a suffix holding no `/`,
      preceded by a `/` unless it is the whole path. */
  function LastComponent(path: string): (name: string)
    ensures |name| <= |path| && name == path[|path| - |name|..]
    ensures '/' !in name
    ensures |name| < |path| ==> path[|path| - |name| - 1] == '/'
    decreases |path|
  {
    if |path| == 0 || path[|path| - 1] == '/' then []
    else LastComponent(path[..|path| - 1]) + [path[|path| - 1]]
  }

  /** The directory named by a path ending in `/name` is `name`. */
  lemma {:induction false} LastComponentAfterSlash(prefix: string, name: string)
    requires '/' !in name
    ensures LastComponent(prefix + "/" + name) == name
    decreases |name|
  {
    if |name| > 0 {
      var init, last := name[..|name| - 1], name[|name| - 1];
      assert name == init + [last];
      assert prefix + "/" + name == (prefix + "/" + init) + [last];
      LastComponentAfterSlash(prefix, init);
      LastComponentSnoc(prefix + "/" + init, last);
    }
  }

  /** Appending a character other than `/` extends the last component by it. */
  lemma LastComponentSnoc(p: string, ch: char)
    requires ch != '/'
    ensures LastComponent(p + [ch]) == LastComponent(p) + [ch]
  {
    var q := p + [ch];
    assert q[..|q| - 1] == p;
  }

  /** The panel of an experiment directory: set apart exactly when the
      directory itself, the last component of its path, has the set-apart name. */
  function DirectoryPanel(dir: string): (p: Panel)
    ensures p == Anomalous <==> LastComponent(dir) == SetApartExperiment
  {
    if LastComponent(dir) == SetApartExperiment then Anomalous else Standard
  }

  /** The path the driver passes for the set-apart experiment never matches
      the comparison as written. */
  lemma DriverPathMissesSetApart()
    ensures PanelAsWritten("../paper_exp042224") == Standard
  {
  }

  /** A path without `/` is its own last component. */
  lemma LastComponentWhole(path: string)
    requires '/' !in path
    ensures LastComponent(path) == path
  {
  }

  /** The set-apart experiment is recognised under any parent directory. */
  lemma DirectoryPanelRecognisesSetApart(parent: string)
    ensures DirectoryPanel(parent + "/" + SetApartExperiment) == Anomalous
  {
    LastComponentAfterSlash(parent, SetApartExperiment);
  }

  /** The set-apart experiment is recognised on its own, and under the path
      the driver passes. */
  lemma DriverPathRecognised()
    ensures DirectoryPanel(SetApartExperiment) == Anomalous
    ensures DirectoryPanel("../paper_exp042224") == Anomalous
  {
    LastComponentWhole(SetApartExperiment);
    DirectoryPanelRecognisesSetApart("..");
    assert ".." + "/" + SetApartExperiment == "../paper_exp042224";
  }

  /** The strategy for component `k`, counted from 1, of the first mixture:
      the valley for component 1 of a standard experiment, the inflection
      otherwise. */
  function Mix1Strategy(panel: Panel, k: nat): Strategy
  {
    if k == 1 && panel == Standard then Valley else Inflection
  }

  /** The strategies of components 1 to `n` of the first mixture. */
  function Mix1Plan(panel: Panel, n: nat): (plan: seq<Strategy>)
    ensures |plan| == n
    ensures forall k :: 0 <= k < n ==> plan[k] == Mix1Strategy(panel, k + 1)
  {
    seq(n, k requires 0 <= k < n => Mix1Strategy(panel, k + 1))
  }

  /** The strategies of components 1 to `n` of the second mixture: always
      the inflection; the anchor is never computed. */
  function Mix2Plan(n: nat): (plan: seq<Strategy>)
    ensures |plan| == n
    ensures forall k :: 0 <= k < n ==> plan[k] == Inflection
  {
    seq(n, _ => Inflection)
  }

  /** A mixture: the abundance of every cell in every reference component,
      and the histogram curves of components 1 to 3. */
  datatype Mix = Mix(abundance: Matrix, curves: seq<Curves>)

  /** The abundance matrix has one column per reference component and there
      are well-formed curves for every component after the first. */
  predicate MixShaped(m: Mix)
  {
    && IsMatrix(m.abundance, Components)
    && |m.curves| + 1 == Components
    && AllWellFormed(m.curves)
  }

  /** The inputs of one run. */
  datatype Experiment = Experiment(
    unstained: Matrix,
    controls: Controls,
    mix1: Mix,
    mix2: Option<Mix>,
    panel: Panel)

  /** The inputs of the experiment stored in directory `dir`: its panel is
      decided by the directory's own name. */
  function ExperimentIn(dir: string, unstained: Matrix, controls: Controls, mix1: Mix, mix2: Option<Mix>)
    : (e: Experiment)
    ensures e.panel == Anomalous <==> LastComponent(dir) == SetApartExperiment
    ensures e.unstained == unstained && e.controls == controls && e.mix1 == mix1 && e.mix2 == mix2
  {
    Experiment(unstained, controls, mix1, mix2, DirectoryPanel(dir))
  }

  /** Every population has `channels` entries per cell and every mixture is shaped. */
  predicate ExperimentShaped(e: Experiment, channels: nat)
  {
    && IsMatrix(e.unstained, channels)
    && WellShaped(e.controls, channels)
    && MixShaped(e.mix1)
    && (e.mix2.Some? ==> MixShaped(e.mix2.value))
  }

  /** What a run produces: the noise vector, the reference matrix, and the
      gates of each mixture, keyed by component. */
  datatype Outputs = Outputs(
    noise: seq<real>,
    reference: Matrix,
    gating1: map<nat, ComponentGate>,
    gating2: Option<map<nat, ComponentGate>>)

  /** Why a run stops. */
  datatype Failure =
    | EmptyUnstained                              // no unstained cell to take a median over
    | ReferenceFailed(reason: ReferenceFailure)   // a control index or an empty control
    | EmptyMixture(mix: nat)                      // a mixture with no cell has no component axis
    | Undetermined(mix: nat, failure: GateFailure) // a component whose threshold cannot be chosen

  /** The gates of mixture number `index` under `plan`. */
  function GateMix(m: Mix, index: nat, plan: seq<Strategy>): (r: Result<map<nat, ComponentGate>, Failure>)
    requires MixShaped(m) && |plan| == |m.curves|
    ensures r.Ok? <==> |m.abundance| > 0 && GateMixture(m.abundance, m.curves, plan).Ok?
    ensures r.Ok? ==> r.value == GateMixture(m.abundance, m.curves, plan).value
    ensures r.Err? ==> (r.error == EmptyMixture(index) <==> |m.abundance| == 0)
    ensures r.Err? && |m.abundance| > 0 ==>
              r.error == Undetermined(index, GateMixture(m.abundance, m.curves, plan).error)
  {
    if |m.abundance| == 0 then Err(EmptyMixture(index))
    else
      match GateMixture(m.abundance, m.curves, plan)
      case Err(f) => Err(Undetermined(index, f))
      case Ok(g) => Ok(g)
  }

  /** The noise vector, or the failure of an empty unstained population. */
  function Noise(e: Experiment, channels: nat): (r: Result<seq<real>, Failure>)
    requires IsMatrix(e.unstained, channels)
    ensures r.Ok? <==> NoiseVector(e.unstained, channels).Some?
    ensures r.Ok? ==> r.value == NoiseVector(e.unstained, channels).value
    ensures r.Err? ==> r.error == EmptyUnstained
  {
    match NoiseVector(e.unstained, channels)
    case None => Err(EmptyUnstained)
    case Some(n) => Ok(n)
  }

  /** The reference matrix built with one-decimal rounding of the control medians. */
  function ReferenceOf(e: Experiment, noise: seq<real>): (r: Result<Matrix, Failure>)
    requires WellShaped(e.controls, |noise|)
    ensures r.Ok? <==> BuildReference(e.controls, noise, Round1).Ok?
    ensures r.Ok? ==> r.value == BuildReference(e.controls, noise, Round1).value
    ensures r.Err? ==> r.error == ReferenceFailed(BuildReference(e.controls, noise, Round1).error)
  {
    match BuildReference(e.controls, noise, Round1)
    case Err(f) => Err(ReferenceFailed(f))
    case Ok(m) => Ok(m)
  }

  /** One run: the noise vector, then the reference matrix, then the first
      mixture's gates, then the second mixture's; the first failure stops it. */
  function Run(e: Experiment, channels: nat): (r: Result<Outputs, Failure>)
    requires ExperimentShaped(e, channels)
    ensures r.Ok? ==> |r.value.noise| == channels && |r.value.reference| == channels
    ensures r.Ok? ==> IsMatrix(r.value.reference, Components)
    ensures r.Ok? ==> (r.value.gating2.Some? <==> e.mix2.Some?)
    ensures r.Ok? ==> r.value.gating1.Keys == Range(1, Components - 1)
    ensures r.Ok? && r.value.gating2.Some? ==> r.value.gating2.value.Keys == Range(1, Components - 1)
  {
    var noise :- Noise(e, channels);
    var reference :- ReferenceOf(e, noise);
    var gating1 :- GateMix(e.mix1, 1, Mix1Plan(e.panel, |e.mix1.curves|));
    match e.mix2
    case None => Ok(Outputs(noise, reference, gating1, None))
    case Some(m2) =>
      var gating2 :- GateMix(m2, 2, Mix2Plan(|m2.curves|));
      Ok(Outputs(noise, reference, gating1, Some(gating2)))
  }

  /** A successful run's outputs are the noise vector, the reference matrix
      built from it, and the gates of each mixture under its strategies. */
  lemma RunOutputs(e: Experiment, channels: nat, o: Outputs)
    requires ExperimentShaped(e, channels)
    requires Run(e, channels) == Ok(o)
    ensures NoiseVector(e.unstained, channels) == Some(o.noise)
    ensures BuildReference(e.controls, o.noise, Round1) == Ok(o.reference)
    ensures GateMixture(e.mix1.abundance, e.mix1.curves, Mix1Plan(e.panel, |e.mix1.curves|)) == Ok(o.gating1)
    ensures e.mix2.Some? ==>
              && o.gating2.Some?
              && GateMixture(e.mix2.value.abundance, e.mix2.value.curves, Mix2Plan(|e.mix2.value.curves|))
                 == Ok(o.gating2.value)
  {
  }

  /** A run fails at the first step that fails, in the order noise, reference,
      first mixture, second mixture, and every earlier step succeeded. */
  lemma RunFailureOrder(e: Experiment, channels: nat, f: Failure)
    requires ExperimentShaped(e, channels)
    requires Run(e, channels) == Err(f)
    ensures f == EmptyUnstained <==> channels > 0 && |e.unstained| == 0
    ensures f.ReferenceFailed? ==>
              && NoiseVector(e.unstained, channels).Some?
              && BuildReference(e.controls, NoiseVector(e.unstained, channels).value, Round1) == Err(f.reason)
    ensures f.EmptyMixture? || f.Undetermined? ==>
              && NoiseVector(e.unstained, channels).Some?
              && BuildReference(e.controls, NoiseVector(e.unstained, channels).value, Round1).Ok?
    ensures f == EmptyMixture(1) <==>
              && NoiseVector(e.unstained, channels).Some?
              && BuildReference(e.controls, NoiseVector(e.unstained, channels).value, Round1).Ok?
              && |e.mix1.abundance| == 0
    ensures (f.EmptyMixture? || f.Undetermined?) && f.mix == 2 ==>
              && e.mix2.Some?
              && GateMix(e.mix1, 1, Mix1Plan(e.panel, |e.mix1.curves|)).Ok?
  {
  }

  /** In a standard experiment the first mixture's component 1 is gated at
      the valley and components 2 and 3 at the inflection; in the set-apart
      experiment and in the second mixture every component uses the inflection. */
  lemma StrategiesPerComponent(m: Mix, panel: Panel, k: nat)
    requires MixShaped(m) && 1 <= k <= |m.curves|
    ensures ThresholdOf(m.curves, Mix1Plan(panel, |m.curves|), k)
            == SelectThreshold(m.curves[k - 1], if k == 1 && panel == Standard then Valley else Inflection)
    ensures ThresholdOf(m.curves, Mix2Plan(|m.curves|), k) == SelectThreshold(m.curves[k - 1], Inflection)
  {
  }

  /** Every gate of the first mixture in a successful run holds the threshold
      its strategy chose and exactly the cells whose abundance in that
      component reaches it. */
  lemma RunGatesMix1(e: Experiment, channels: nat, o: Outputs, k: nat)
    requires ExperimentShaped(e, channels)
    requires Run(e, channels) == Ok(o) && 1 <= k < Components
    ensures SelectThreshold(e.mix1.curves[k - 1], Mix1Strategy(e.panel, k)).Ok?
    ensures k in o.gating1
    ensures o.gating1[k].threshold == SelectThreshold(e.mix1.curves[k - 1], Mix1Strategy(e.panel, k)).value
    ensures o.gating1[k].positives == Gate(Column(e.mix1.abundance, k), o.gating1[k].threshold)
  {
    RunOutputs(e, channels, o);
    GateMixtureOutcome(e.mix1.abundance, e.mix1.curves, Mix1Plan(e.panel, |e.mix1.curves|), k);
  }

  /** Every gate of the second mixture, when there is one, holds the
      inflection threshold of its component and exactly the cells whose
      abundance in that component reaches it. */
  lemma RunGatesMix2(e: Experiment, channels: nat, o: Outputs, k: nat)
    requires ExperimentShaped(e, channels)
    requires Run(e, channels) == Ok(o) && e.mix2.Some? && 1 <= k < Components
    ensures SelectThreshold(e.mix2.value.curves[k - 1], Inflection).Ok?
    ensures o.gating2.Some? && k in o.gating2.value
    ensures o.gating2.value[k].threshold == SelectThreshold(e.mix2.value.curves[k - 1], Inflection).value
    ensures o.gating2.value[k].positives == Gate(Column(e.mix2.value.abundance, k), o.gating2.value[k].threshold)
  {
    RunOutputs(e, channels, o);
    GateMixtureOutcome(e.mix2.value.abundance, e.mix2.value.curves, Mix2Plan(|e.mix2.value.curves|), k);
  }
}
