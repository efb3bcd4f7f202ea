/** The baseline estimator: the per-channel median of a population, and the
    noise vector it yields for the unstained control. */
module Baseline {
  import opened Results
  import opened Stats
  import opened Matrices

  /** The median of every channel `0 .. channels - 1` of `m`. This fails only
      when a median is taken over an empty column, that is when there is at
      least one channel and no cell; with no channel the loop never runs. */
  function ChannelMedians(m: Matrix, channels: nat): (r: Option<seq<real>>)
    requires IsMatrix(m, channels)
    ensures r.None? <==> channels > 0 && |m| == 0
    ensures r.Some? ==> |r.value| == channels
    ensures r.Some? ==> forall i :: 0 <= i < channels ==> Median(Column(m, i)) == Some(r.value[i])
  {
    if channels > 0 && |m| == 0 then None
    else Some(seq(channels, i requires 0 <= i < channels => Median(Column(m, i)).value))
  }

  /** The noise vector: one median per channel of the unstained population. */
  function NoiseVector(unstained: Matrix, channels: nat): (r: Option<seq<real>>)
    requires IsMatrix(unstained, channels)
    ensures r.None? <==> channels > 0 && |unstained| == 0
    ensures r.Some? ==> |r.value| == channels
    ensures r.Some? ==> forall i :: 0 <= i < channels ==> Median(Column(unstained, i)) == Some(r.value[i])
  {
    ChannelMedians(unstained, channels)
  }

  /** Reordering the cells of a population does not change its channel medians. */
  lemma ChannelMediansRowOrderInvariant(a: Matrix, b: Matrix, channels: nat)
    requires IsMatrix(a, channels) && IsMatrix(b, channels)
    requires multiset(a) == multiset(b)
    ensures ChannelMedians(a, channels) == ChannelMedians(b, channels)
  {
    assert |a| == |multiset(a)| == |multiset(b)| == |b|;
    if ChannelMedians(a, channels).Some? {
      forall i | 0 <= i < channels
        ensures Median(Column(a, i)) == Median(Column(b, i))
      {
        ColumnPermutation(a, b, channels, i);
        MedianPermutationInvariant(Column(a, i), Column(b, i));
      }
      assert ChannelMedians(a, channels).value == ChannelMedians(b, channels).value;
    }
  }

  /** The noise vector depends only on the multiset of unstained cells. */
  lemma NoiseRowOrderInvariant(a: Matrix, b: Matrix, channels: nat)
    requires IsMatrix(a, channels) && IsMatrix(b, channels)
    requires multiset(a) == multiset(b)
    ensures NoiseVector(a, channels) == NoiseVector(b, channels)
  {
    ChannelMediansRowOrderInvariant(a, b, channels);
  }

  /** Each noise entry lies between the least and greatest value of its channel. */
  lemma NoiseWithinChannelRange(unstained: Matrix, channels: nat, i: nat)
    requires IsMatrix(unstained, channels)
    requires |unstained| > 0 && i < channels
    ensures Min(Column(unstained, i)) <= NoiseVector(unstained, channels).value[i] <= Max(Column(unstained, i))
  {
    MedianWithinRange(Column(unstained, i));
  }
}
