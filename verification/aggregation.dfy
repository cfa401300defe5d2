/** The final move choice: root children are grouped by move label in order
    of first appearance, each group's win rates are averaged, and the label
    with the highest mean wins, the earliest label among equals. */
module Aggregation {
  import opened Options
  import opened Argmax

  /** The first components of a list of pairs: the keys of a grouping, the
      moves of an expansion list, the labels of the root entries. */
  function Keys<K, V>(s: seq<(K, V)>): set<K> {
    set k | 0 <= k < |s| :: s[k].0
  }

  /** The labels that occur among the entries, built up one entry at a time
      as the grouping loop meets them. */
  function LabelSet<M>(e: seq<(M, real)>): (ls: set<M>)
    ensures forall n :: 0 <= n < |e| ==> e[n].0 in ls
    decreases |e|
  {
    if |e| == 0 then {} else LabelSet(e[..|e| - 1]) + {e[|e| - 1].0}
  }

  /** The label set is the set of every entry's label. */
  lemma {:induction false} LabelSetIsLabels<M>(e: seq<(M, real)>)
    ensures LabelSet(e) == Keys(e)
    decreases |e|
  {
    if |e| > 0 {
      var prefix := e[..|e| - 1];
      LabelSetIsLabels(prefix);
      assert forall n :: 0 <= n < |prefix| ==> prefix[n] == e[n];
    }
  }

  /** The win rates of the entries labelled `x`, in entry order. */
  function RatesOf<M(==)>(e: seq<(M, real)>, x: M): (rs: seq<real>)
    ensures |rs| > 0 <==> x in LabelSet(e)
    decreases |e|
  {
    if |e| == 0 then []
    else RatesOf(e[..|e| - 1], x) + (if e[|e| - 1].0 == x then [e[|e| - 1].1] else [])
  }

  /** The position of the first entry labelled `x`. */
  function FirstIndex<M(==)>(e: seq<(M, real)>, x: M): (f: nat)
    requires x in LabelSet(e)
    ensures f < |e| && e[f].0 == x
    decreases |e|
  {
    var prefix := e[..|e| - 1];
    if x in LabelSet(prefix) then FirstIndex(prefix, x) else |e| - 1
  }

  /** No entry before the first index carries the label. Kept out of
      `FirstIndex`'s own contract, where it would fire on every entry. */
  lemma {:induction false} FirstIndexIsFirst<M>(e: seq<(M, real)>, x: M)
    requires x in LabelSet(e)
    ensures forall n :: 0 <= n < FirstIndex(e, x) ==> e[n].0 != x
    decreases |e|
  {
    var prefix := e[..|e| - 1];
    if x in LabelSet(prefix) {
      FirstIndexIsFirst(prefix, x);
      assert forall n :: 0 <= n < |prefix| ==> prefix[n] == e[n];
    } else {
      forall n | 0 <= n < |e| - 1 ensures e[n].0 != x {
        assert prefix[n] == e[n];
      }
    }
  }

  function Sum(xs: seq<real>): real
    decreases |xs|
  {
    if |xs| == 0 then 0.0 else xs[0] + Sum(xs[1..])
  }

  /** `sum(v) / len(v)`. */
  function Mean(xs: seq<real>): real
    requires |xs| > 0
  {
    Sum(xs) / (|xs| as real)
  }

  /** The mean win rate of the children labelled `x`. */
  function GroupMean<M(==)>(e: seq<(M, real)>, x: M): real
    requires x in LabelSet(e)
  {
    Mean(RatesOf(e, x))
  }

  ghost predicate DistinctKeys<M>(g: seq<(M, seq<real>)>) {
    forall k1, k2 :: 0 <= k1 < k2 < |g| ==> g[k1].0 != g[k2].0
  }

  /** One pass of the grouping loop: append `rate` to the group of `x`, or
      open a new group for `x` at the end. */
  function Insert<M(==)>(g: seq<(M, seq<real>)>, x: M, rate: real): (r: seq<(M, seq<real>)>)
    requires DistinctKeys(g)
    ensures Keys(r) == Keys(g) + {x}
    ensures |r| == if x in Keys(g) then |g| else |g| + 1
    ensures forall k {:trigger r[k]} :: 0 <= k < |g| ==>
              r[k].0 == g[k].0 && r[k].1 == (if g[k].0 == x then g[k].1 + [rate] else g[k].1)
    ensures x !in Keys(g) ==> r[|g|] == (x, [rate])
    decreases |g|
  {
    if |g| == 0 then
      var r := [(x, [rate])];
      assert r[0].0 == x;
      r
    else if g[0].0 == x then
      var r := [(x, g[0].1 + [rate])] + g[1..];
      KeysCons(g[0], g[1..]);
      KeysCons(r[0], g[1..]);
      assert g == [g[0]] + g[1..];
      r
    else
      var rest := Insert(g[1..], x, rate);
      var r := [g[0]] + rest;
      KeysCons(g[0], g[1..]);
      KeysCons(g[0], rest);
      assert g == [g[0]] + g[1..];
      r
  }

  lemma KeysCons<K, V>(h: (K, V), g: seq<(K, V)>)
    ensures Keys([h] + g) == {h.0} + Keys(g)
  {
    var r := [h] + g;
    assert r[0].0 == h.0;
    forall y | y in Keys(g) ensures y in Keys(r) {
      var k :| 0 <= k < |g| && g[k].0 == y;
      assert r[k + 1].0 == y;
    }
    forall y | y in Keys(r) ensures y in {h.0} + Keys(g) {
      var k :| 0 <= k < |r| && r[k].0 == y;
      if k > 0 {
        assert g[k - 1].0 == y;
      }
    }
  }

  /** The grouping loop over all entries. */
  function GroupBy<M(==)>(e: seq<(M, real)>): (g: seq<(M, seq<real>)>)
    ensures DistinctKeys(g)
    ensures Keys(g) == LabelSet(e)
    ensures forall k :: 0 <= k < |g| ==> g[k].0 in LabelSet(e)
    ensures forall k {:trigger g[k].1} :: 0 <= k < |g| ==> g[k].0 in LabelSet(e) && g[k].1 == RatesOf(e, g[k].0)
    ensures forall k1, k2 {:trigger FirstIndex(e, g[k1].0), FirstIndex(e, g[k2].0)} :: 0 <= k1 < k2 < |g| ==>
              g[k1].0 in LabelSet(e) && g[k2].0 in LabelSet(e) && FirstIndex(e, g[k1].0) < FirstIndex(e, g[k2].0)
    decreases |e|
  {
    if |e| == 0 then []
    else
      var g0 := GroupBy(e[..|e| - 1]);
      GroupByStep(e, g0);
      Extend(e, g0)
  }

  /** The facts the grouping loop keeps about the entries seen so far. */
  ghost predicate Grouped<M>(e: seq<(M, real)>, g: seq<(M, seq<real>)>) {
    && DistinctKeys(g)
    && Keys(g) == LabelSet(e)
    && (forall k :: 0 <= k < |g| ==> g[k].0 in LabelSet(e))
    && (forall k {:trigger g[k].1} :: 0 <= k < |g| ==> g[k].0 in LabelSet(e) && g[k].1 == RatesOf(e, g[k].0))
    && (forall k1, k2 {:trigger FirstIndex(e, g[k1].0), FirstIndex(e, g[k2].0)} :: 0 <= k1 < k2 < |g| ==>
          g[k1].0 in LabelSet(e) && g[k2].0 in LabelSet(e) && FirstIndex(e, g[k1].0) < FirstIndex(e, g[k2].0))
  }

  /** The grouping loop's pass over the last entry of `e`. */
  function Extend<M(==)>(e: seq<(M, real)>, g0: seq<(M, seq<real>)>): seq<(M, seq<real>)>
    requires |e| > 0 && DistinctKeys(g0)
  {
    Insert(g0, e[|e| - 1].0, e[|e| - 1].1)
  }

  /** Inserting the last entry into the grouping of the others groups them
      all. */
  lemma GroupByStep<M>(e: seq<(M, real)>, g0: seq<(M, seq<real>)>)
    requires |e| > 0 && Grouped(e[..|e| - 1], g0)
    ensures Grouped(e, Extend(e, g0))
  {
    var prefix := e[..|e| - 1];
    var x := e[|e| - 1].0;
    assert LabelSet(e) == LabelSet(prefix) + {x};
    InsertKeepsDistinct(g0, x, e[|e| - 1].1);
    GroupStepRates(e, g0);
    GroupStepOrder(e, g0);
  }

  /** The grouping loop never opens a second group for a label. */
  lemma InsertKeepsDistinct<M>(g: seq<(M, seq<real>)>, x: M, rate: real)
    requires DistinctKeys(g)
    ensures DistinctKeys(Insert(g, x, rate))
  {
    var r := Insert(g, x, rate);
    forall k1, k2 | 0 <= k1 < k2 < |r| ensures r[k1].0 != r[k2].0 {
      assert r[k1].0 == g[k1].0;
      if k2 < |g| {
        assert r[k2].0 == g[k2].0;
      } else {
        assert g[k1].0 in Keys(g);
      }
    }
  }

  /** A group that existed before the last entry. */
  lemma GroupStepOld<M>(e: seq<(M, real)>, g0: seq<(M, seq<real>)>, k: nat)
    requires |e| > 0 && Grouped(e[..|e| - 1], g0) && k < |g0|
    ensures var r := Extend(e, g0);
            && k < |r| && r[k].0 == g0[k].0 && r[k].0 in LabelSet(e) && r[k].1 == RatesOf(e, r[k].0)
            && FirstIndex(e, r[k].0) == FirstIndex(e[..|e| - 1], g0[k].0)
  {
    var r := Extend(e, g0);
    var prefix := e[..|e| - 1];
    var x := e[|e| - 1].0;
    var y := g0[k].0;
    assert LabelSet(e) == LabelSet(prefix) + {x};
    assert r[k].0 == y && y in LabelSet(prefix) && g0[k].1 == RatesOf(prefix, y);
    assert RatesOf(e, y) == RatesOf(prefix, y) + (if x == y then [e[|e| - 1].1] else []);
  }

  /** The group opened by the last entry, when its label is new. */
  lemma GroupStepNew<M>(e: seq<(M, real)>, g0: seq<(M, seq<real>)>)
    requires |e| > 0 && Grouped(e[..|e| - 1], g0) && e[|e| - 1].0 !in Keys(g0)
    ensures var r := Extend(e, g0);
            && |g0| < |r| && r[|g0|].0 in LabelSet(e) && r[|g0|].1 == RatesOf(e, r[|g0|].0)
            && FirstIndex(e, r[|g0|].0) == |e| - 1
  {
    var r := Extend(e, g0);
    var prefix := e[..|e| - 1];
    var x := e[|e| - 1].0;
    assert r[|g0|] == (x, [e[|e| - 1].1]);
    assert LabelSet(e) == LabelSet(prefix) + {x};
    assert RatesOf(prefix, x) == [];
    assert RatesOf(e, x) == RatesOf(prefix, x) + [e[|e| - 1].1];
  }

  /** A group past the old ones exists only when the last label is new,
      and it is the one right after them. */
  lemma NewLastGroup<M>(e: seq<(M, real)>, g0: seq<(M, seq<real>)>, k: nat)
    requires |e| > 0 && DistinctKeys(g0) && |g0| <= k < |Extend(e, g0)|
    ensures k == |g0| && e[|e| - 1].0 !in Keys(g0)
  {
  }

  lemma GroupStepRates<M>(e: seq<(M, real)>, g0: seq<(M, seq<real>)>)
    requires |e| > 0 && Grouped(e[..|e| - 1], g0)
    ensures var r := Extend(e, g0);
            forall k {:trigger r[k].1} :: 0 <= k < |r| ==> r[k].0 in LabelSet(e) && r[k].1 == RatesOf(e, r[k].0)
  {
    var r := Extend(e, g0);
    forall k | 0 <= k < |r|
      ensures r[k].0 in LabelSet(e) && r[k].1 == RatesOf(e, r[k].0)
    {
      if k < |g0| {
        GroupStepOld(e, g0, k);
      } else {
        NewLastGroup(e, g0, k);
        GroupStepNew(e, g0);
      }
    }
  }

  lemma GroupStepOrder<M>(e: seq<(M, real)>, g0: seq<(M, seq<real>)>)
    requires |e| > 0 && Grouped(e[..|e| - 1], g0)
    ensures var r := Extend(e, g0);
            && (forall k :: 0 <= k < |r| ==> r[k].0 in LabelSet(e))
            && (forall k1, k2 {:trigger FirstIndex(e, r[k1].0), FirstIndex(e, r[k2].0)} :: 0 <= k1 < k2 < |r| ==>
                  r[k1].0 in LabelSet(e) && r[k2].0 in LabelSet(e) && FirstIndex(e, r[k1].0) < FirstIndex(e, r[k2].0))
  {
    var r := Extend(e, g0);
    forall k | 0 <= k < |r|
      ensures r[k].0 in LabelSet(e)
    {
      if k < |g0| {
        GroupStepOld(e, g0, k);
      } else {
        NewLastGroup(e, g0, k);
        GroupStepNew(e, g0);
      }
    }
    forall k1, k2 | 0 <= k1 < k2 < |r|
      ensures r[k1].0 in LabelSet(e) && r[k2].0 in LabelSet(e) && FirstIndex(e, r[k1].0) < FirstIndex(e, r[k2].0)
    {
      GroupStepOld(e, g0, k1);
      if k2 < |g0| {
        GroupStepOld(e, g0, k2);
        assert FirstIndex(e[..|e| - 1], g0[k1].0) < FirstIndex(e[..|e| - 1], g0[k2].0);
      } else {
        NewLastGroup(e, g0, k2);
        GroupStepNew(e, g0);
      }
    }
  }

  /** Label `m` occurs, no label has a higher mean, and every label seen
      before `m` has a strictly lower one. */
  ghost predicate IsFirstBestLabel<M>(e: seq<(M, real)>, m: M) {
    && m in LabelSet(e)
    && (forall x {:trigger GroupMean(e, x)} :: x in LabelSet(e) ==> GroupMean(e, x) <= GroupMean(e, m))
    && (forall x {:trigger GroupMean(e, x)} :: x in LabelSet(e) && FirstIndex(e, x) < FirstIndex(e, m) ==>
          GroupMean(e, x) < GroupMean(e, m))
  }

  /** The label `select_move` returns: the first label, in order of first
      appearance, whose mean win rate is the highest, provided that mean
      exceeds the initial maximum of -1; None otherwise. The contract spells
      out `IsFirstBestLabel`; its quantifiers fire only on means already
      under discussion. */
  function BestMove<M(==)>(e: seq<(M, real)>): (r: Option<M>)
    ensures r.None? <==> forall x {:trigger GroupMean(e, x)} :: x in LabelSet(e) ==> GroupMean(e, x) <= -1.0
    ensures r.Some? ==> r.value in LabelSet(e) && -1.0 < GroupMean(e, r.value)
    ensures r.Some? ==> forall x {:trigger GroupMean(e, x)} :: x in LabelSet(e) ==> GroupMean(e, x) <= GroupMean(e, r.value)
    ensures r.Some? ==> forall x {:trigger GroupMean(e, x)} :: x in LabelSet(e) && FirstIndex(e, x) < FirstIndex(e, r.value) ==>
              GroupMean(e, x) < GroupMean(e, r.value)
  {
    var g := GroupBy(e);
    BestOfGroups(e, g)
  }

  /** `BestMove`'s choice, stated as one predicate. */
  lemma BestMoveIsFirstBest<M>(e: seq<(M, real)>)
    ensures BestMove(e).Some? ==> IsFirstBestLabel(e, BestMove(e).value)
  {
  }

  /** The scan over the groups of `e`, in group order. */
  function BestOfGroups<M(==)>(e: seq<(M, real)>, g: seq<(M, seq<real>)>): (r: Option<M>)
    requires Grouped(e, g)
    ensures r.None? <==> forall x {:trigger GroupMean(e, x)} :: x in LabelSet(e) ==> GroupMean(e, x) <= -1.0
    ensures r.Some? ==> r.value in LabelSet(e) && -1.0 < GroupMean(e, r.value)
    ensures r.Some? ==> forall x {:trigger GroupMean(e, x)} :: x in LabelSet(e) ==> GroupMean(e, x) <= GroupMean(e, r.value)
    ensures r.Some? ==> forall x {:trigger GroupMean(e, x)} :: x in LabelSet(e) && FirstIndex(e, x) < FirstIndex(e, r.value) ==>
              GroupMean(e, x) < GroupMean(e, r.value)
  {
    var means := GroupMeans(e, g);
    var best := RunningMax(means).1;
    if best.None? then
      NoBestGroup(e, g, means);
      None
    else
      BestGroup(e, g, means, best.value);
      Some(g[best.value].0)
  }

  /** The mean of every group, in group order. */
  function GroupMeans<M>(e: seq<(M, real)>, g: seq<(M, seq<real>)>): (means: seq<real>)
    requires Grouped(e, g)
    ensures |means| == |g| && forall k {:trigger means[k]} :: 0 <= k < |g| ==> |g[k].1| > 0 && means[k] == Mean(g[k].1)
  {
    seq(|g|, k requires 0 <= k < |g| => Mean(g[k].1))
  }

  /** Every label's mean is one of the group means. */
  lemma GroupMeanIsMean<M>(e: seq<(M, real)>, g: seq<(M, seq<real>)>, means: seq<real>, x: M)
      returns (k: nat)
    requires Grouped(e, g) && |means| == |g|
    requires forall k {:trigger means[k]} :: 0 <= k < |g| ==> means[k] == Mean(g[k].1)
    requires x in LabelSet(e)
    ensures k < |g| && g[k].0 == x && GroupMean(e, x) == means[k]
  {
    assert x in Keys(g);
    k :| 0 <= k < |g| && g[k].0 == x;
  }

  lemma NoBestGroup<M>(e: seq<(M, real)>, g: seq<(M, seq<real>)>, means: seq<real>)
    requires Grouped(e, g) && |means| == |g|
    requires forall k {:trigger means[k]} :: 0 <= k < |g| ==> means[k] == Mean(g[k].1)
    requires forall k :: 0 <= k < |means| ==> means[k] <= -1.0
    ensures forall x {:trigger GroupMean(e, x)} :: x in LabelSet(e) ==> GroupMean(e, x) <= -1.0
  {
    forall x | x in LabelSet(e)
      ensures GroupMean(e, x) <= -1.0
    {
      var k := GroupMeanIsMean(e, g, means, x);
    }
  }

  lemma BestGroup<M>(e: seq<(M, real)>, g: seq<(M, seq<real>)>, means: seq<real>, j: nat)
    requires Grouped(e, g) && |means| == |g|
    requires forall k {:trigger means[k]} :: 0 <= k < |g| ==> means[k] == Mean(g[k].1)
    requires IsFirstMax(means, j) && -1.0 < means[j]
    ensures g[j].0 in LabelSet(e) && GroupMean(e, g[j].0) == means[j]
    ensures forall x {:trigger GroupMean(e, x)} :: x in LabelSet(e) ==> GroupMean(e, x) <= means[j]
    ensures forall x {:trigger GroupMean(e, x)} :: x in LabelSet(e) && FirstIndex(e, x) < FirstIndex(e, g[j].0) ==>
              GroupMean(e, x) < means[j]
  {
    forall x | x in LabelSet(e)
      ensures GroupMean(e, x) <= means[j]
      ensures FirstIndex(e, x) < FirstIndex(e, g[j].0) ==> GroupMean(e, x) < means[j]
    {
      var k := GroupMeanIsMean(e, g, means, x);
      if j < k {
        assert FirstIndex(e, g[j].0) < FirstIndex(e, g[k].0);
      }
    }
  }



  /** A sum of win rates lies between zero and their count. */
  lemma {:induction false} SumBounds(xs: seq<real>)
    requires forall k :: 0 <= k < |xs| ==> 0.0 <= xs[k] <= 1.0
    ensures 0.0 <= Sum(xs) <= |xs| as real
    decreases |xs|
  {
    if |xs| > 0 {
      SumBounds(xs[1..]);
    }
  }

  /** A mean of win rates is a win rate. */
  lemma MeanBounds(xs: seq<real>)
    requires |xs| > 0
    requires forall k :: 0 <= k < |xs| ==> 0.0 <= xs[k] <= 1.0
    ensures 0.0 <= Mean(xs) <= 1.0
  {
    SumBounds(xs);
    var n := |xs| as real;
    var q := Mean(xs);
    assert q * n == Sum(xs);
    NonPositiveFactor(q - 1.0, n);
    NonPositiveFactor(-q, n);
  }

  lemma NonPositiveFactor(a: real, n: real)
    requires 0.0 < n && a * n <= 0.0
    ensures a <= 0.0
  {
  }

  /** Grouping moves rates around but never invents one. */
  lemma {:induction false} RatesOfBounded<M>(e: seq<(M, real)>, x: M)
    requires forall n :: 0 <= n < |e| ==> 0.0 <= e[n].1 <= 1.0
    ensures forall k :: 0 <= k < |RatesOf(e, x)| ==> 0.0 <= RatesOf(e, x)[k] <= 1.0
    decreases |e|
  {
    if |e| > 0 {
      var prefix := e[..|e| - 1];
      RatesOfBounded(prefix, x);
      var rs := RatesOf(e, x);
      assert rs == RatesOf(prefix, x) + (if e[|e| - 1].0 == x then [e[|e| - 1].1] else []);
      forall k | 0 <= k < |rs| ensures 0.0 <= rs[k] <= 1.0 {
        if k < |RatesOf(prefix, x)| {
          assert rs[k] == RatesOf(prefix, x)[k];
        }
      }
    }
  }

  /** When every entry's rate is a win rate, so is each label's mean. */
  lemma GroupMeanBounds<M>(e: seq<(M, real)>, x: M)
    requires forall n :: 0 <= n < |e| ==> 0.0 <= e[n].1 <= 1.0
    requires x in LabelSet(e)
    ensures 0.0 <= GroupMean(e, x) <= 1.0
  {
    RatesOfBounded(e, x);
    MeanBounds(RatesOf(e, x));
  }

  /** With win rates as entries, some label is chosen as soon as there is an
      entry, and a single entry's label is chosen outright. */
  lemma BestMoveOfRates<M>(e: seq<(M, real)>)
    requires forall n :: 0 <= n < |e| ==> 0.0 <= e[n].1 <= 1.0
    ensures |e| > 0 ==> BestMove(e).Some?
    ensures |e| == 1 ==> BestMove(e) == Some(e[0].0)
  {
    if |e| > 0 {
      SomeLabelChosen(e);
      if |e| == 1 {
        OnlyLabelChosen(e);
      }
    }
  }

  lemma SomeLabelChosen<M>(e: seq<(M, real)>)
    requires |e| > 0 && forall n :: 0 <= n < |e| ==> 0.0 <= e[n].1 <= 1.0
    ensures BestMove(e).Some?
  {
    GroupMeanBounds(e, e[0].0);
  }

  lemma OnlyLabelChosen<M>(e: seq<(M, real)>)
    requires |e| == 1 && BestMove(e).Some?
    ensures BestMove(e) == Some(e[0].0)
  {
    assert LabelSet(e) == {e[0].0} by {
      assert e[..0] == [];
    }
  }
}
