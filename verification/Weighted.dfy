/** Weighted choice in exact arithmetic: the subtracting scan against the cumulative table. */
module Weighted {

  function Positive(w: real): real { if w > 0.0 then w else 0.0 }

  /** Sum of the positive weights among the first `k`. */
  function Below(weights: seq<real>, k: nat): real
    requires k <= |weights|
  {
    if k == 0 then 0.0 else Below(weights, k - 1) + Positive(weights[k - 1])
  }

  /** The entry of the cumulative table. */
  function Cumulative(weights: seq<real>, i: nat): real
    requires i < |weights|
  {
    Below(weights, i + 1)
  }

  function Sum(weights: seq<real>): real { Below(weights, |weights|) }

  /** Index `i` owns the draws from the sum below it up to its own cumulative weight. */
  predicate Owns(weights: seq<real>, i: nat, draw: real) {
    i < |weights| && Below(weights, i) <= draw < Cumulative(weights, i)
  }

  lemma {:induction false} BelowMonotone(weights: seq<real>, i: nat, j: nat)
    requires i <= j <= |weights|
    ensures Below(weights, i) <= Below(weights, j)
    decreases j
  {
    if i < j {
      BelowMonotone(weights, i, j - 1);
    }
  }

  /** `draw` is the generator's value from `[0, total)`; it is only drawn when the total is positive. */
  method WeightedIndex(weights: seq<real>, draw: real) returns (index: nat)
    requires Sum(weights) > 0.0 ==> 0.0 <= draw < Sum(weights)
    ensures Sum(weights) > 0.0 ==> Owns(weights, index, draw)
    ensures Sum(weights) <= 0.0 ==> index == 0
  {
    var total := 0.0;
    for i := 0 to |weights|
      invariant total == Below(weights, i)
    {
      if weights[i] > 0.0 {
        total := total + weights[i];
      }
    }
    if total <= 0.0 || weights == [] {
      return 0;
    }
    var r := draw;
    for i := 0 to |weights|
      invariant r == draw - Below(weights, i) && r >= 0.0
    {
      if weights[i] > 0.0 {
        if r < weights[i] {
          return i;
        }
        r := r - weights[i];
      }
    }
    assert false; // the draw is below the total, so the last positive weight ends the scan
  }

  method BuildCumulative(weights: seq<real>) returns (cum: seq<real>)
    ensures |cum| == |weights| && forall i | 0 <= i < |cum| :: cum[i] == Cumulative(weights, i)
  {
    cum := [];
    var sum := 0.0;
    for i := 0 to |weights|
      invariant sum == Below(weights, i) && |cum| == i
      invariant forall j | 0 <= j < i :: cum[j] == Cumulative(weights, j)
    {
      if weights[i] > 0.0 {
        sum := sum + weights[i];
      }
      cum := cum + [sum];
    }
  }

  lemma OneOwner(weights: seq<real>, i: nat, j: nat, draw: real)
    requires Owns(weights, i, draw) && Owns(weights, j, draw)
    ensures i == j
  {
    if j < i {
      BelowMonotone(weights, j + 1, i);
    } else if i < j {
      BelowMonotone(weights, i + 1, j);
    }
  }

  /** The owner of a draw is the first index whose cumulative weight exceeds it; there is no other
      owner, and its weight is positive. */
  lemma OwnerIsFirstAbove(weights: seq<real>, i: nat, draw: real)
    requires i < |weights| && draw >= 0.0
    ensures Owns(weights, i, draw) <==>
              draw < Cumulative(weights, i) && forall j | 0 <= j < i :: Cumulative(weights, j) <= draw
    ensures Owns(weights, i, draw) ==> weights[i] > 0.0
    ensures Owns(weights, i, draw) ==> forall j: nat :: Owns(weights, j, draw) ==> j == i
  {
    forall j | 0 <= j < |weights| ensures Cumulative(weights, j) >= Below(weights, j) {
      BelowMonotone(weights, j, j + 1);
    }
    if Owns(weights, i, draw) {
      forall j: nat | j < i ensures Cumulative(weights, j) <= draw {
        BelowMonotone(weights, j + 1, i);
      }
      forall j: nat | Owns(weights, j, draw) ensures j == i {
        OneOwner(weights, i, j, draw);
      }
    } else if i > 0 {
      assert Cumulative(weights, i - 1) == Below(weights, i);
    }
  }

  /** Every draw below the total has an owner, and index `i` owns an interval of exactly its weight:
      none at all when the weight is not positive. */
  lemma IntervalsPartition(weights: seq<real>, draw: real, i: nat)
    requires 0.0 <= draw < Sum(weights) && i < |weights|
    ensures exists j :: Owns(weights, j, draw)
    ensures Below(weights, i + 1) - Below(weights, i) == Positive(weights[i])
    ensures 0.0 <= Below(weights, i) && Below(weights, i + 1) <= Sum(weights)
  {
    BelowMonotone(weights, 0, i);
    BelowMonotone(weights, i + 1, |weights|);
    var j := 0;
    while draw >= Below(weights, j + 1)
      invariant j < |weights| && Below(weights, j) <= draw
      decreases |weights| - j
    {
      if j + 1 == |weights| {
        assert false;
      }
      j := j + 1;
    }
    assert Owns(weights, j, draw);
  }

  /** With all weights positive, as for Zipf ranks, every index is reachable. */
  lemma PositiveWeightReachable(weights: seq<real>, i: nat)
    requires i < |weights| && weights[i] > 0.0
    ensures 0.0 <= Below(weights, i) < Sum(weights) && Owns(weights, i, Below(weights, i))
  {
    BelowMonotone(weights, 0, i);
    BelowMonotone(weights, i + 1, |weights|);
  }
}
