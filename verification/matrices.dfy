/** Cell measurement matrices: rows are cells, columns are channels. */
module Matrices {
  import opened Sorting

  type Row = seq<real>
  type Matrix = seq<Row>

  /** Every row of `m` has exactly `width` entries (a rectangular array). */
  predicate IsMatrix(m: Matrix, width: nat) {
    forall r :: 0 <= r < |m| ==> |m[r]| == width
  }

  /** Column `i` of `m`: the value of channel `i` for every cell, in row order. */
  function Column(m: Matrix, i: nat): (c: seq<real>)
    requires forall r :: 0 <= r < |m| ==> i < |m[r]|
    ensures |c| == |m|
    ensures forall r :: 0 <= r < |m| ==> c[r] == m[r][i]
  {
    seq(|m|, r requires 0 <= r < |m| && i < |m[r]| => m[r][i])
  }

  /** Reordering the rows of a matrix reorders each of its columns. */
  lemma ColumnPermutation(a: Matrix, b: Matrix, width: nat, i: nat)
    requires IsMatrix(a, width) && IsMatrix(b, width) && i < width
    requires multiset(a) == multiset(b)
    ensures multiset(Column(a, i)) == multiset(Column(b, i))
  {
    var f := (row: Row) => if i < |row| then row[i] else 0.0;
    assert Column(a, i) == Image(f, a);
    assert Column(b, i) == Image(f, b);
    ImagePermutation(f, a, b);
  }
}
