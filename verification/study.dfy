/** The part of an optimisation study that the early-stopping callback sees.
    The study maximises its objective, so after every finished trial the value
    it reports as `best_value` is the largest objective value so far. */
module Study {

  /** Every later entry is at least as large as every earlier one. */
  ghost predicate NonDecreasing(vs: seq<real>)
  {
    forall i, j :: 0 <= i <= j < |vs| ==> vs[i] <= vs[j]
  }

  function Max(a: real, b: real): (m: real)
    ensures a <= m && b <= m
    ensures m == a || m == b
  {
    if a < b then b else a
  }

  /** The study's best value after each finished trial: entry i is the
      maximum of the first i + 1 trial values. */
  function RunningBest(values: seq<real>): (best: seq<real>)
    ensures |best| == |values|
    ensures NonDecreasing(best)
    ensures forall i, j :: 0 <= j <= i < |values| ==> values[j] <= best[i]
    ensures forall i :: 0 <= i < |values| ==> exists j :: 0 <= j <= i && best[i] == values[j]
    decreases |values|
  {
    if |values| == 0 then []
    else
      var init := values[..|values| - 1];
      var prefix := RunningBest(init);
      var last := values[|values| - 1];
      var top := if |prefix| == 0 then last else Max(prefix[|prefix| - 1], last);
      assert forall j :: 0 <= j < |init| ==> values[j] == init[j];
      assert forall i :: 0 <= i < |prefix| ==> prefix[i] <= top;
      prefix + [top]
  }
}
