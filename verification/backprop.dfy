/** Backpropagation: the rollout's outcome is recorded on the simulated node
    and on every ancestor reached through `parent` links. */
module Backprop {
  import opened Options
  import opened Arena

  /** The chain of `parent` links from `i` up to the root, `i` first. */
  function PathToRoot(t: Tree, i: nat): (p: seq<nat>)
    requires Valid(t) && i < |t|
    ensures |p| >= 1 && p[0] == i && p[|p| - 1] == 0
    ensures forall k :: 0 <= k < |p| ==> p[k] <= i
    ensures forall k :: 0 <= k < |p| - 1 ==> t[p[k]].parent == Some(p[k + 1])
    ensures forall k1, k2 :: 0 <= k1 < k2 < |p| ==> p[k2] < p[k1]
    decreases i
  {
    match t[i].parent
    case None => [i]
    case Some(q) =>
      var rest := PathToRoot(t, q);
      assert forall k :: 1 <= k < |[i] + rest| ==> ([i] + rest)[k] == rest[k - 1];
      [i] + rest
  }

  /** Trees of the same shape have the same paths. */
  lemma {:induction false} PathToRootShape(t: Tree, u: Tree, i: nat)
    requires Valid(t) && SameShape(t, u) && i < |t|
    ensures Valid(u) && PathToRoot(u, i) == PathToRoot(t, i)
    decreases i
  {
    ValidShape(t, u);
    assert SameLinks(t[i], u[i]);
    match t[i].parent
    case None =>
    case Some(q) => PathToRootShape(t, u, q);
  }

  /** The backpropagation loop: `record(reward)` on `i`, then on its parent,
      and so on until the root has been recorded. */
  function Backpropagate(t: Tree, i: nat, won: bool): (u: Tree)
    requires Valid(t) && i < |t|
    ensures SameShape(t, u) && Valid(u)
    ensures forall j :: 0 <= j < |t| && j in PathToRoot(t, i) ==> u[j] == Record(t[j], won)
    ensures forall j :: 0 <= j < |t| && j !in PathToRoot(t, i) ==> u[j] == t[j]
    decreases i
  {
    var t1 := t[i := Record(t[i], won)];
    assert SameShape(t, t1);
    ValidShape(t, t1);
    match t[i].parent
    case None => t1
    case Some(q) =>
      var u := Backpropagate(t1, q, won);
      PathToRootShape(t, t1, q);
      BackpropagateStep(t, t1, u, i, won, PathToRoot(t, q));
      ValidShape(t1, u);
      u
  }

  /** Recording `i` first and then the path above it records each node of
      `[i] + above` exactly once. */
  lemma BackpropagateStep(t: Tree, t1: Tree, u: Tree, i: nat, won: bool, above: seq<nat>)
    requires i < |t| && t1 == t[i := Record(t[i], won)]
    requires forall k :: 0 <= k < |above| ==> above[k] < i
    requires SameShape(t1, u)
    requires forall j :: 0 <= j < |t1| && j in above ==> u[j] == Record(t1[j], won)
    requires forall j :: 0 <= j < |t1| && j !in above ==> u[j] == t1[j]
    ensures SameShape(t, u)
    ensures forall j :: 0 <= j < |t| && j in [i] + above ==> u[j] == Record(t[j], won)
    ensures forall j :: 0 <= j < |t| && j !in [i] + above ==> u[j] == t[j]
  {
    forall j | 0 <= j < |t|
      ensures SameLinks(t[j], u[j])
    {
      assert SameLinks(t1[j], u[j]);
    }
  }

  /** The nodes a path passes through. */
  function Elements(p: seq<nat>): set<nat> {
    set x | x in p
  }

  /** A strictly decreasing sequence has as many distinct elements as
      positions. */
  lemma {:induction false} StrictlyDecreasingCard(p: seq<nat>)
    requires forall k1, k2 :: 0 <= k1 < k2 < |p| ==> p[k2] < p[k1]
    ensures |Elements(p)| == |p|
    decreases |p|
  {
    if |p| == 0 {
      assert Elements(p) == {};
    } else {
      StrictlyDecreasingCard(p[1..]);
      var rest := Elements(p[1..]);
      assert Elements(p) == {p[0]} + rest by {
        forall x | x in Elements(p) ensures x in {p[0]} + rest {
          var k :| 0 <= k < |p| && p[k] == x;
          if k > 0 { assert p[1..][k - 1] == x; }
        }
      }
      assert p[0] !in rest by {
        forall k | 0 <= k < |p[1..]| ensures p[1..][k] != p[0] {
          assert p[1..][k] == p[k + 1];
        }
      }
    }
  }

  /** Backpropagation changes the visit count of exactly the nodes on the
      path from the simulated node to the root: one per parent link, plus
      the simulated node itself. */
  lemma BackpropagateCount(t: Tree, i: nat, won: bool)
    requires Valid(t) && i < |t|
    ensures var u := Backpropagate(t, i, won);
            && (set j | 0 <= j < |t| && u[j].nGames != t[j].nGames) == Elements(PathToRoot(t, i))
            && |set j | 0 <= j < |t| && u[j].nGames != t[j].nGames| == |PathToRoot(t, i)|
  {
    var u := Backpropagate(t, i, won);
    var p := PathToRoot(t, i);
    var changed := set j | 0 <= j < |t| && u[j].nGames != t[j].nGames;
    assert forall x :: x in p ==> x < |t|;
    assert changed == Elements(p);
    StrictlyDecreasingCard(p);
  }

  /** The simulated node and the root are always recorded, and since a
      reward adds at most one win per visit, no node ends with more wins than
      games. */
  lemma BackpropagateRecords(t: Tree, i: nat, won: bool)
    requires Valid(t) && i < |t|
    ensures var u := Backpropagate(t, i, won);
            && u[0] == Record(t[0], won) && u[i] == Record(t[i], won)
            && (Bounded(t) ==> Bounded(u))
  {
    var u := Backpropagate(t, i, won);
    var p := PathToRoot(t, i);
    assert p[|p| - 1] == 0 && p[0] == i;
    if Bounded(t) {
      forall j | 0 <= j < |u|
        ensures u[j].wins <= u[j].nGames
      {
        assert t[j].wins <= t[j].nGames;
      }
    }
  }
}
