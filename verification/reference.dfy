/** The reference matrix builder: each single-stain control is restricted to
    its listed positive cells, the noise vector is subtracted from every kept
    cell, the per-channel medians are rounded, and the resulting spectra are
    laid side by side after the noise vector as a channel x 4 matrix. */
module Reference {
  import opened Results
  import opened Stats
  import opened Matrices
  import opened Baseline
  import opened Sorting

  /** The three single-stain controls of the panel. */
  datatype Control = Atto488 | Fret | Atto647

  /** A control population: its cells and the row indices of its positive cells. */
  datatype Population = Population(rows: Matrix, positives: seq<int>)

  /** The single-stain controls of one experiment, one field per control. */
  datatype Controls = Controls(atto488: Population, fret: Population, atto647: Population)

  /** Why a reference matrix cannot be built: a listed index names no cell, or
      a control has no positive cell left to take a median over. */
  datatype ReferenceFailure =
    | IndexOutOfRange(control: Control, index: int)
    | EmptyControl(control: Control)

  /** Number of reference columns: noise, ATTO488, FRET, ATTO647. */
  const Components: nat := 4

  /** Every control has one entry per channel in every cell. */
  predicate WellShaped(cs: Controls, channels: nat)
  {
    && IsMatrix(cs.atto488.rows, channels)
    && IsMatrix(cs.fret.rows, channels)
    && IsMatrix(cs.atto647.rows, channels)
  }

  /** `i` selects a row of an `n`-row array, counting from the end when negative. */
  predicate ValidIndex(i: int, n: nat)
  {
    -(n as int) <= i < n
  }

  /** The row a valid index selects. */
  function Resolve(i: int, n: nat): (k: nat)
    requires ValidIndex(i, n)
    ensures k < n
    ensures i >= 0 ==> k == i
    ensures i < 0 ==> k - n == i
  {
    if i >= 0 then i else n + i
  }

  predicate AllValid(idx: seq<int>, n: nat)
  {
    forall k :: 0 <= k < |idx| ==> ValidIndex(idx[k], n)
  }

  /** The rows `rows[idx[0]], rows[idx[1]], ...` in index-list order; fails on
      the first index that names no row. */
  function RestrictRows(rows: Matrix, idx: seq<int>): (r: Result<Matrix, int>)
    ensures r.Ok? <==> AllValid(idx, |rows|)
    ensures r.Ok? ==> |r.value| == |idx|
    ensures r.Ok? ==> forall k :: 0 <= k < |idx| ==> r.value[k] == rows[Resolve(idx[k], |rows|)]
    ensures r.Err? ==> exists k :: 0 <= k < |idx| && idx[k] == r.error && !ValidIndex(idx[k], |rows|)
                                   && AllValid(idx[..k], |rows|)
  {
    if |idx| == 0 then Ok([])
    else if !ValidIndex(idx[0], |rows|) then
      assert AllValid(idx[..0], |rows|);
      Err(idx[0])
    else
      match RestrictRows(rows, idx[1..])
      case Err(i) =>
        assert exists k :: 1 <= k < |idx| && idx[k] == i && !ValidIndex(idx[k], |rows|) && AllValid(idx[..k], |rows|) by {
          var k' :| 0 <= k' < |idx| - 1 && idx[1..][k'] == i && !ValidIndex(idx[1..][k'], |rows|)
                   && AllValid(idx[1..][..k'], |rows|);
          assert idx[..k' + 1] == [idx[0]] + idx[1..][..k'];
        }
        Err(i)
      case Ok(rest) => Ok([rows[Resolve(idx[0], |rows|)]] + rest)
  }

  /** Every cell less the noise vector, channel by channel; nothing is clipped. */
  function SubtractNoise(rows: Matrix, noise: seq<real>): (pure: Matrix)
    requires IsMatrix(rows, |noise|)
    ensures |pure| == |rows| && IsMatrix(pure, |noise|)
    ensures forall r, i :: 0 <= r < |rows| && 0 <= i < |noise| ==> pure[r][i] == rows[r][i] - noise[i]
  {
    seq(|rows|, r requires 0 <= r < |rows| =>
      seq(|noise|, i requires 0 <= i < |noise| => rows[r][i] - noise[i]))
  }

  /** The listed positive cells of `p`, in index-list order. */
  function Kept(p: Population): (m: Matrix)
    requires AllValid(p.positives, |p.rows|)
    ensures |m| == |p.positives|
    ensures forall k :: 0 <= k < |m| ==> m[k] == p.rows[Resolve(p.positives[k], |p.rows|)]
  {
    RestrictRows(p.rows, p.positives).value
  }

  /** Step (1): restrict one control to its positive cells. */
  function Restrict(p: Population, c: Control): (r: Result<Matrix, ReferenceFailure>)
    ensures r.Ok? <==> AllValid(p.positives, |p.rows|)
    ensures r.Ok? ==> RestrictRows(p.rows, p.positives) == Ok(r.value)
    ensures r.Err? ==> r.error.IndexOutOfRange? && r.error.control == c
    ensures r.Err? ==> RestrictRows(p.rows, p.positives) == Err(r.error.index)
  {
    match RestrictRows(p.rows, p.positives)
    case Err(i) => Err(IndexOutOfRange(c, i))
    case Ok(m) => Ok(m)
  }

  /** Steps (2) and (3): subtract the noise and take the rounded median of every channel. */
  function Spectrum(kept: Matrix, noise: seq<real>, round1: real -> real, c: Control): (r: Result<seq<real>, ReferenceFailure>)
    requires IsMatrix(kept, |noise|)
    ensures r.Err? <==> |noise| > 0 && |kept| == 0
    ensures r.Err? ==> r.error == EmptyControl(c)
    ensures r.Ok? ==> |r.value| == |noise|
    ensures r.Ok? ==> forall i :: 0 <= i < |noise| ==>
                        r.value[i] == round1(Median(Column(SubtractNoise(kept, noise), i)).value)
  {
    match ChannelMedians(SubtractNoise(kept, noise), |noise|)
    case None => Err(EmptyControl(c))
    case Some(m) => Ok(seq(|m|, i requires 0 <= i < |m| => round1(m[i])))
  }

  /** Step (4): row `i` of the reference matrix is `[noise[i], a[i], f[i], b[i]]`. */
  function Assemble(noise: seq<real>, a: seq<real>, f: seq<real>, b: seq<real>): (m: Matrix)
    requires |a| == |noise| && |f| == |noise| && |b| == |noise|
    ensures |m| == |noise| && IsMatrix(m, Components)
    ensures forall i :: 0 <= i < |noise| ==> m[i] == [noise[i], a[i], f[i], b[i]]
  {
    seq(|noise|, i requires 0 <= i < |noise| => [noise[i], a[i], f[i], b[i]])
  }

  /** Subtracting the noise shifts every column down by the noise of its channel. */
  lemma SubtractedColumn(rows: Matrix, noise: seq<real>, i: nat)
    requires IsMatrix(rows, |noise|) && i < |noise|
    ensures Column(SubtractNoise(rows, noise), i) == Shift(Column(rows, i), noise[i])
  {
  }

  /** Channel `i` of the kept cells of `p` less the noise of that channel: the
      column whose median is a reference entry. */
  function ControlColumn(p: Population, noise: seq<real>, i: nat): (col: seq<real>)
    requires IsMatrix(p.rows, |noise|) && AllValid(p.positives, |p.rows|) && i < |noise|
    ensures |col| == |p.positives|
  {
    Shift(Column(Kept(p), i), noise[i])
  }

  /** No control index is out of range. */
  predicate IndicesValid(cs: Controls)
  {
    && AllValid(cs.atto488.positives, |cs.atto488.rows|)
    && AllValid(cs.fret.positives, |cs.fret.rows|)
    && AllValid(cs.atto647.positives, |cs.atto647.rows|)
  }

  /** Every control keeps at least one cell whenever there is a channel to take a median of. */
  predicate ControlsNonEmpty(cs: Controls, channels: nat)
  {
    channels > 0 ==> |cs.atto488.positives| > 0 && |cs.fret.positives| > 0 && |cs.atto647.positives| > 0
  }

  /** The reference matrix, or the first failure in the order the source meets
      them: every control is restricted first (ATTO488, FRET, ATTO647), and
      only then are the medians taken. */
  function BuildReference(cs: Controls, noise: seq<real>, round1: real -> real): (r: Result<Matrix, ReferenceFailure>)
    requires WellShaped(cs, |noise|)
    ensures r.Ok? ==> |r.value| == |noise| && IsMatrix(r.value, Components)
    ensures r.Ok? ==> forall i :: 0 <= i < |noise| ==> r.value[i][0] == noise[i]
  {
    var k488 :- Restrict(cs.atto488, Atto488);
    var kFret :- Restrict(cs.fret, Fret);
    var k647 :- Restrict(cs.atto647, Atto647);
    var s488 :- Spectrum(k488, noise, round1, Atto488);
    var sFret :- Spectrum(kFret, noise, round1, Fret);
    var s647 :- Spectrum(k647, noise, round1, Atto647);
    Ok(Assemble(noise, s488, sFret, s647))
  }

  /** The builder succeeds exactly when every listed index names a cell and,
      when there is a channel at all, every control keeps at least one cell. */
  lemma ReferenceSucceedsExactly(cs: Controls, noise: seq<real>, round1: real -> real)
    requires WellShaped(cs, |noise|)
    ensures BuildReference(cs, noise, round1).Ok? <==> IndicesValid(cs) && ControlsNonEmpty(cs, |noise|)
  {
  }

  /** A successful build assembles the three control spectra after the noise. */
  lemma ReferenceUnfolds(cs: Controls, noise: seq<real>, round1: real -> real)
      returns (s488: seq<real>, sFret: seq<real>, s647: seq<real>)
    requires WellShaped(cs, |noise|)
    requires IndicesValid(cs) && ControlsNonEmpty(cs, |noise|)
    ensures IsMatrix(Kept(cs.atto488), |noise|) && Spectrum(Kept(cs.atto488), noise, round1, Atto488) == Ok(s488)
    ensures IsMatrix(Kept(cs.fret), |noise|) && Spectrum(Kept(cs.fret), noise, round1, Fret) == Ok(sFret)
    ensures IsMatrix(Kept(cs.atto647), |noise|) && Spectrum(Kept(cs.atto647), noise, round1, Atto647) == Ok(s647)
    ensures BuildReference(cs, noise, round1) == Ok(Assemble(noise, s488, sFret, s647))
  {
    assert IsMatrix(Kept(cs.atto488), |noise|);
    assert IsMatrix(Kept(cs.fret), |noise|);
    assert IsMatrix(Kept(cs.atto647), |noise|);
    s488 := Spectrum(Kept(cs.atto488), noise, round1, Atto488).value;
    sFret := Spectrum(Kept(cs.fret), noise, round1, Fret).value;
    s647 := Spectrum(Kept(cs.atto647), noise, round1, Atto647).value;
  }

  /** The entry for channel `i` of the spectrum of one control. */
  lemma SpectrumEntry(p: Population, c: Control, noise: seq<real>, round1: real -> real, i: nat)
    requires IsMatrix(p.rows, |noise|) && i < |noise|
    requires AllValid(p.positives, |p.rows|) && |p.positives| > 0
    requires IsMatrix(Kept(p), |noise|)
    ensures Spectrum(Kept(p), noise, round1, c).Ok?
    ensures Spectrum(Kept(p), noise, round1, c).value[i] == round1(Median(ControlColumn(p, noise, i)).value)
  {
    SubtractedColumn(Kept(p), noise, i);
  }

  /** Row `i` of the reference matrix is the noise of channel `i` followed by
      the rounded medians of channel `i`, less that noise, over the kept cells
      of ATTO488, FRET and ATTO647, in that order. */
  lemma ReferenceColumns(cs: Controls, noise: seq<real>, round1: real -> real, i: nat)
    requires WellShaped(cs, |noise|) && i < |noise|
    requires BuildReference(cs, noise, round1).Ok?
    ensures IndicesValid(cs) && ControlsNonEmpty(cs, |noise|)
    ensures BuildReference(cs, noise, round1).value[i] ==
              [ noise[i],
                round1(Median(ControlColumn(cs.atto488, noise, i)).value),
                round1(Median(ControlColumn(cs.fret, noise, i)).value),
                round1(Median(ControlColumn(cs.atto647, noise, i)).value) ]
  {
    ReferenceSucceedsExactly(cs, noise, round1);
    var s488, sFret, s647 := ReferenceUnfolds(cs, noise, round1);
    SpectrumEntry(cs.atto488, Atto488, noise, round1, i);
    SpectrumEntry(cs.fret, Fret, noise, round1, i);
    SpectrumEntry(cs.atto647, Atto647, noise, round1, i);
  }

  /** An index failure names the first control, in column order, holding an
      index out of range, and the first such index in its list. */
  lemma ReferenceIndexFailure(cs: Controls, noise: seq<real>, round1: real -> real, c: Control, index: int)
    requires WellShaped(cs, |noise|)
    requires BuildReference(cs, noise, round1) == Err(IndexOutOfRange(c, index))
    ensures c == Atto488 ==> RestrictRows(cs.atto488.rows, cs.atto488.positives) == Err(index)
    ensures c == Fret ==> AllValid(cs.atto488.positives, |cs.atto488.rows|)
                          && RestrictRows(cs.fret.rows, cs.fret.positives) == Err(index)
    ensures c == Atto647 ==> AllValid(cs.atto488.positives, |cs.atto488.rows|)
                             && AllValid(cs.fret.positives, |cs.fret.rows|)
                             && RestrictRows(cs.atto647.rows, cs.atto647.positives) == Err(index)
  {
  }

  /** An empty-control failure comes only once every index is valid, and names
      the first control, in column order, left without a positive cell. */
  lemma ReferenceEmptyFailure(cs: Controls, noise: seq<real>, round1: real -> real, c: Control)
    requires WellShaped(cs, |noise|)
    requires BuildReference(cs, noise, round1) == Err(EmptyControl(c))
    ensures IndicesValid(cs) && |noise| > 0
    ensures c == Atto488 ==> |cs.atto488.positives| == 0
    ensures c == Fret ==> |cs.atto488.positives| > 0 && |cs.fret.positives| == 0
    ensures c == Atto647 ==> |cs.atto488.positives| > 0 && |cs.fret.positives| > 0 && |cs.atto647.positives| == 0
  {
  }

  /** The kept cells of a control have as many channels as the control. */
  lemma KeptShape(p: Population, channels: nat)
    requires IsMatrix(p.rows, channels) && AllValid(p.positives, |p.rows|)
    ensures IsMatrix(Kept(p), channels)
  {
  }

  /** The median of a control column is the raw channel median less the noise. */
  lemma ControlColumnIsShift(p: Population, noise: seq<real>, i: nat)
    requires IsMatrix(p.rows, |noise|) && AllValid(p.positives, |p.rows|) && i < |noise|
    requires |p.positives| > 0
    ensures IsMatrix(Kept(p), |noise|)
    ensures Median(ControlColumn(p, noise, i)).value == Median(Column(Kept(p), i)).value - noise[i]
  {
    KeptShape(p, |noise|);
    MedianShift(Column(Kept(p), i), noise[i]);
  }

  /** Because nothing is clipped, entry `i` of a control spectrum is the
      rounding of the median of the raw channel values of the kept cells, less
      the channel's noise; that unrounded median is returned. */
  lemma SpectrumEntryIsShiftedMedian(p: Population, c: Control, noise: seq<real>, round1: real -> real, i: nat) returns (m: real)
    requires IsMatrix(p.rows, |noise|) && i < |noise|
    requires AllValid(p.positives, |p.rows|) && |p.positives| > 0
    requires IsMatrix(Kept(p), |noise|)
    ensures m == Median(Column(Kept(p), i)).value - noise[i]
    ensures Spectrum(Kept(p), noise, round1, c).Ok? && Spectrum(Kept(p), noise, round1, c).value[i] == round1(m)
  {
    SpectrumEntry(p, c, noise, round1, i);
    ControlColumnIsShift(p, noise, i);
    m := Median(ControlColumn(p, noise, i)).value;
  }

  /** Validity of an index list depends only on which indices it holds. */
  lemma AllValidPermutation(a: seq<int>, b: seq<int>, n: nat)
    requires multiset(a) == multiset(b) && AllValid(a, n)
    ensures AllValid(b, n)
  {
    forall k | 0 <= k < |b|
      ensures ValidIndex(b[k], n)
    {
      assert b[k] in multiset(a);
      var j :| 0 <= j < |a| && a[j] == b[k];
    }
  }

  /** Reordering a positive-index list reorders the control column it selects. */
  lemma ControlColumnPermutation(p: Population, q: Population, noise: seq<real>, i: nat)
    requires IsMatrix(p.rows, |noise|) && i < |noise|
    requires q.rows == p.rows && multiset(q.positives) == multiset(p.positives)
    requires AllValid(p.positives, |p.rows|) && AllValid(q.positives, |q.rows|)
    ensures Median(ControlColumn(p, noise, i)) == Median(ControlColumn(q, noise, i))
  {
    var n := |p.rows|;
    var pick := (k: int) => if ValidIndex(k, n) then p.rows[Resolve(k, n)] else [];
    assert Kept(p) == Image(pick, p.positives);
    assert Kept(q) == Image(pick, q.positives);
    ImagePermutation(pick, p.positives, q.positives);
    ColumnPermutation(Kept(p), Kept(q), |noise|, i);
    ShiftPermutation(Column(Kept(p), i), Column(Kept(q), i), noise[i]);
    MedianPermutationInvariant(ControlColumn(p, noise, i), ControlColumn(q, noise, i));
  }

  /** `q` lists the same cells as `p`, possibly in another order. */
  predicate Reordered(p: Population, q: Population)
  {
    q.rows == p.rows && multiset(q.positives) == multiset(p.positives)
  }

  /** Reordering keeps validity and the number of listed cells. */
  lemma ReorderedKeepsShape(p: Population, q: Population)
    requires Reordered(p, q)
    ensures |q.positives| == |p.positives|
    ensures AllValid(p.positives, |p.rows|) <==> AllValid(q.positives, |q.rows|)
  {
    assert |multiset(q.positives)| == |multiset(p.positives)|;
    if AllValid(p.positives, |p.rows|) {
      AllValidPermutation(p.positives, q.positives, |p.rows|);
    }
    if AllValid(q.positives, |q.rows|) {
      AllValidPermutation(q.positives, p.positives, |q.rows|);
    }
  }

  /** Row `i` of the reference matrix is the same for reordered positive-index lists. */
  lemma ReorderedRowAgrees(cs: Controls, ds: Controls, noise: seq<real>, round1: real -> real, i: nat)
    requires WellShaped(cs, |noise|) && WellShaped(ds, |noise|) && i < |noise|
    requires Reordered(cs.atto488, ds.atto488)
    requires Reordered(cs.fret, ds.fret)
    requires Reordered(cs.atto647, ds.atto647)
    requires BuildReference(cs, noise, round1).Ok? && BuildReference(ds, noise, round1).Ok?
    ensures BuildReference(cs, noise, round1).value[i] == BuildReference(ds, noise, round1).value[i]
  {
    ReferenceColumns(cs, noise, round1, i);
    ReferenceColumns(ds, noise, round1, i);
    ControlColumnPermutation(cs.atto488, ds.atto488, noise, i);
    ControlColumnPermutation(cs.fret, ds.fret, noise, i);
    ControlColumnPermutation(cs.atto647, ds.atto647, noise, i);
  }

  /** The reference matrix does not depend on the order of the positive-index
      lists: the builder succeeds for both or for neither, with the same matrix. */
  lemma ReferencePositivesOrderInvariant(cs: Controls, ds: Controls, noise: seq<real>, round1: real -> real)
    requires WellShaped(cs, |noise|)
    requires Reordered(cs.atto488, ds.atto488)
    requires Reordered(cs.fret, ds.fret)
    requires Reordered(cs.atto647, ds.atto647)
    ensures WellShaped(ds, |noise|)
    ensures BuildReference(cs, noise, round1).Ok? <==> BuildReference(ds, noise, round1).Ok?
    ensures BuildReference(cs, noise, round1).Ok? ==>
              BuildReference(cs, noise, round1).value == BuildReference(ds, noise, round1).value
  {
    ReorderedKeepsShape(cs.atto488, ds.atto488);
    ReorderedKeepsShape(cs.fret, ds.fret);
    ReorderedKeepsShape(cs.atto647, ds.atto647);
    ReferenceSucceedsExactly(cs, noise, round1);
    ReferenceSucceedsExactly(ds, noise, round1);
    if BuildReference(cs, noise, round1).Ok? {
      var m, m' := BuildReference(cs, noise, round1).value, BuildReference(ds, noise, round1).value;
      forall i | 0 <= i < |noise|
        ensures m[i] == m'[i]
      {
        ReorderedRowAgrees(cs, ds, noise, round1, i);
      }
    }
  }
}
