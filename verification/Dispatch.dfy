/** The dispatch table and the fairness of cycling through it. */
module Dispatch {
  import opened Arith

  function Share(weight: nat): nat { if weight > 1 then weight else 1 }

  /** Total number of slots of the first `k` targets. */
  function Total(weights: seq<nat>, k: nat): nat
    requires k <= |weights|
  {
    if k == 0 then 0 else Total(weights, k - 1) + Share(weights[k - 1])
  }

  /** The copies a target pushes, back to back. */
  function Copies(target: nat, n: nat): (r: seq<nat>) {
    seq(n, i => target)
  }

  function WeightedTable(weights: seq<nat>, k: nat): seq<nat>
    requires k <= |weights|
  {
    if k == 0 then [] else WeightedTable(weights, k - 1) + Copies(k - 1, Share(weights[k - 1]))
  }

  function Identity(n: nat): seq<nat> {
    seq(n, i => i)
  }

  function Table(weights: seq<nat>, weighted: bool): seq<nat> {
    if weighted then WeightedTable(weights, |weights|) else Identity(|weights|)
  }

  method CreateDispatcher(weights: seq<nat>, weighted: bool) returns (v: seq<nat>)
    ensures v == Table(weights, weighted)
  {
    if !weighted {
      return Identity(|weights|);
    }
    v := [];
    for idx := 0 to |weights|
      invariant v == WeightedTable(weights, idx)
    {
      ghost var before := v;
      for n := 0 to Share(weights[idx])
        invariant v == before + Copies(idx, n)
      {
        v := v + [idx];
      }
    }
    if v == [] {
      WeightedTableSize(weights, |weights|);
      v := Identity(|weights|);
    }
  }

  lemma {:induction false} WeightedTableSize(weights: seq<nat>, k: nat)
    requires k <= |weights|
    ensures |WeightedTable(weights, k)| == Total(weights, k) >= k
    ensures forall i | 0 <= i < |WeightedTable(weights, k)| :: WeightedTable(weights, k)[i] < k
  {
    if k > 0 {
      WeightedTableSize(weights, k - 1);
    }
  }

  lemma {:induction false} CopiesCount(target: nat, n: nat, i: nat)
    ensures multiset(Copies(target, n))[i] == if i == target then n else 0
  {
    if n > 0 {
      CopiesCount(target, n - 1, i);
      assert Copies(target, n) == Copies(target, n - 1) + [target];
    }
  }

  lemma {:induction false} WeightedTableCount(weights: seq<nat>, k: nat, i: nat)
    requires k <= |weights|
    ensures multiset(WeightedTable(weights, k))[i] == if i < k then Share(weights[i]) else 0
  {
    if k > 0 {
      WeightedTableCount(weights, k - 1, i);
      CopiesCount(k - 1, Share(weights[k - 1]), i);
    }
  }

  lemma {:induction false} IdentityCount(n: nat, i: nat)
    ensures multiset(Identity(n))[i] == if i < n then 1 else 0
  {
    if n > 0 {
      IdentityCount(n - 1, i);
      assert Identity(n) == Identity(n - 1) + [n - 1];
    }
  }

  /** Every table of at least one target is non-empty, names valid targets only, and gives each
      target its share of the slots. */
  lemma TableShares(weights: seq<nat>, weighted: bool)
    requires weights != []
    ensures var t := Table(weights, weighted);
            && |t| == (if weighted then Total(weights, |weights|) else |weights|) > 0
            && (forall i | 0 <= i < |t| :: t[i] < |weights|)
            && (forall i | 0 <= i < |weights| ::
                  multiset(t)[i] == if weighted && weights[i] > 0 then weights[i] else 1)
  {
    WeightedTableSize(weights, |weights|);
    forall i | 0 <= i < |weights|
      ensures multiset(Table(weights, weighted))[i] == if weighted && weights[i] > 0 then weights[i] else 1
    {
      WeightedTableCount(weights, |weights|, i);
      IdentityCount(|weights|, i);
    }
  }

  // ----- Cycling through a table -----

  /** The target of sequence number `m` (they start at 1). */
  function Pick(table: seq<nat>, m: nat): nat
    requires table != [] && m > 0
  {
    table[(m - 1) % |table|]
  }

  /** How often target `i` is picked by the `n` sequence numbers from `first` on. */
  function Picks(table: seq<nat>, i: nat, first: nat, n: nat): nat
    requires table != [] && first > 0
  {
    if n == 0 then 0
    else Picks(table, i, first, n - 1) + if Pick(table, first + n - 1) == i then 1 else 0
  }

  lemma {:induction false} PicksSplit(table: seq<nat>, i: nat, first: nat, n: nat, more: nat)
    requires table != [] && first > 0
    ensures Picks(table, i, first, n + more) == Picks(table, i, first, n) + Picks(table, i, first + n, more)
  {
    if more > 0 {
      PicksSplit(table, i, first, n, more - 1);
      assert first + n + more - 1 == first + (n + more) - 1;
    }
  }

  lemma {:induction false} FirstCycle(table: seq<nat>, i: nat, n: nat)
    requires table != [] && n <= |table|
    ensures Picks(table, i, 1, n) == multiset(table[..n])[i]
  {
    if n > 0 {
      FirstCycle(table, i, n - 1);
      assert table[..n] == table[..n - 1] + [table[n - 1]];
      DivModUnique(n - 1, |table|, 0, n - 1);
      assert Pick(table, n) == table[n - 1];
      assert multiset(table[..n]) == multiset(table[..n - 1]) + multiset([table[n - 1]]);
    }
  }

  /** The first cycle goes through the table from its first entry on, and every cycle repeats it. */
  lemma PicksInOrder(table: seq<nat>, k: nat, m: nat)
    requires k < |table| && m > 0
    ensures Pick(table, k + 1) == table[k] && Pick(table, m + |table|) == Pick(table, m)
  {
    DivModUnique(k, |table|, 0, k);
    PickPeriodic(table, m);
  }

  lemma PickPeriodic(table: seq<nat>, m: nat)
    requires table != [] && m > 0
    ensures Pick(table, m + |table|) == Pick(table, m)
  {
    var w := |table|;
    assert (m - 1 + w) % w == (m - 1) % w by { ModAddPeriod(m - 1, w); }
    assert m + w - 1 == m - 1 + w;
  }

  /** Any |table| consecutive sequence numbers pick each target as often as the table lists it. */
  lemma {:induction false} CycleCount(table: seq<nat>, i: nat, first: nat)
    requires table != [] && first > 0
    ensures Picks(table, i, first, |table|) == multiset(table)[i]
  {
    if first == 1 {
      FirstCycle(table, i, |table|);
      assert table[..|table|] == table;
    } else {
      CycleCount(table, i, first - 1);
      PicksSplit(table, i, first - 1, 1, |table|);
      PicksSplit(table, i, first - 1, |table|, 1);
      PickPeriodic(table, first - 1);
      assert Picks(table, i, first - 1, 1) == Picks(table, i, first - 1 + |table|, 1) by {
        assert Picks(table, i, first - 1, 0) == 0 && Picks(table, i, first - 1 + |table|, 0) == 0;
      }
    }
  }

  lemma {:induction false} CyclesCount(table: seq<nat>, i: nat, first: nat, cycles: nat)
    requires table != [] && first > 0
    ensures Picks(table, i, first, cycles * |table|) == cycles * multiset(table)[i]
    decreases cycles
  {
    var w, c := |table|, multiset(table)[i];
    if cycles > 0 {
      CyclesCount(table, i, first, cycles - 1);
      var before := (cycles - 1) * w;
      assert cycles * w == before + w && cycles * c == (cycles - 1) * c + c;
      CycleCount(table, i, first + before);
      PicksSplit(table, i, first, before, w);
    }
  }

  function CeilDiv(n: nat, w: nat): nat
    requires w > 0
  {
    if n % w == 0 then n / w else n / w + 1
  }

  /** Over any `n` consecutive sequence numbers each target gets its share per cycle, rounded down
      to whole cycles at the least and up to whole cycles at the most. */
  lemma FairShare(weights: seq<nat>, weighted: bool, i: nat, first: nat, n: nat)
    requires i < |weights| && first > 0
    ensures var t := Table(weights, weighted);
            var share := if weighted && weights[i] > 0 then weights[i] else 1;
            && t != []
            && n / |t| * share <= Picks(t, i, first, n) <= CeilDiv(n, |t|) * share
            && (n == |t| ==> Picks(t, i, first, n) == share)
            && forall m | first <= m < first + n :: Pick(t, m) < |weights|
  {
    TableShares(weights, weighted);
    var t := Table(weights, weighted);
    var share := if weighted && weights[i] > 0 then weights[i] else 1;
    CycleCount(t, i, first);
    QuotientRemainder(n, |t|);
    CyclesAndRest(t, i, first, n / |t|, n % |t|);
    Successor(n / |t|, share);
  }

  lemma Successor(q: nat, share: nat)
    ensures (q + 1) * share == q * share + share
  {
  }

  lemma CyclesAndRest(table: seq<nat>, i: nat, first: nat, q: nat, r: nat)
    requires table != [] && first > 0 && r < |table|
    ensures var share, n := multiset(table)[i], q * |table| + r;
            q * share <= Picks(table, i, first, n) <= q * share + if r == 0 then 0 else share
  {
    var before := q * |table|;
    CyclesCount(table, i, first, q);
    PicksSplit(table, i, first, before, r);
    CycleCount(table, i, first + before);
    PicksSplit(table, i, first + before, r, |table| - r);
  }
}
