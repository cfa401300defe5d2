/** `select_child`: choosing the sibling with the best UCT score. */
module Selection {
  import opened Options
  import opened Arena
  import opened Uct
  import opened Argmax

  /** The visits of the listed nodes added up: the `total` that every
      sibling's score is computed against. */
  function SumVisits(t: Tree, cs: seq<nat>): (s: nat)
    requires forall k :: 0 <= k < |cs| ==> cs[k] < |t|
    ensures forall k :: 0 <= k < |cs| ==> t[cs[k]].nGames <= s
    decreases |cs|
  {
    if |cs| == 0 then 0 else t[cs[0]].nGames + SumVisits(t, cs[1..])
  }

  /** Every child of `i` has been recorded at least once, so its win rate is
      defined. */
  ghost predicate ChildrenVisited(t: Tree, i: nat)
    requires i < |t|
  {
    forall c :: c in t[i].childs ==> c < |t| && t[c].nGames >= 1
  }

  /** In a valid tree whose non-root nodes are all visited, every node's
      children are. */
  lemma VisitedChildren(t: Tree, i: nat)
    requires Valid(t) && Visited(t) && i < |t|
    ensures ChildrenVisited(t, i)
  {
    forall c | c in t[i].childs
      ensures c < |t| && t[c].nGames >= 1
    {
      var k :| 0 <= k < |t[i].childs| && t[i].childs[k] == c;
      assert t[c].parent == Some(i);
    }
  }

  /** The UCT score of child `c` among the children of `i`. */
  function ChildScore(t: Tree, i: nat, c: nat, explore: Exploration): (r: real)
    requires Valid(t) && i < |t| && ChildrenVisited(t, i) && c in t[i].childs
    ensures 0.0 <= WinRate(t[c]) <= r
  {
    UctScore(WinRate(t[c]), SumVisits(t, t[i].childs), t[c].nGames, Temperature, explore)
  }

  /** `select_child`: a node without children selects itself; otherwise the
      child with the highest score, the earliest one among equals. */
  function SelectChild(t: Tree, i: nat, explore: Exploration): (r: nat)
    requires Valid(t) && i < |t| && ChildrenVisited(t, i)
    ensures IsLeaf(t[i]) ==> r == i
    ensures !IsLeaf(t[i]) ==> r in t[i].childs && i < r < |t|
    ensures !IsLeaf(t[i]) ==> forall c :: c in t[i].childs ==>
              ChildScore(t, i, c, explore) <= ChildScore(t, i, r, explore)
    ensures !IsLeaf(t[i]) ==> forall c :: c in t[i].childs && c < r ==>
              ChildScore(t, i, c, explore) < ChildScore(t, i, r, explore)
  {
    var cs := t[i].childs;
    if |cs| == 0 then i
    else
      var scores := seq(|cs|, k requires 0 <= k < |cs| => ChildScore(t, i, cs[k], explore));
      assert scores[0] >= 0.0;
      var j := RunningMax(scores).1.value;
      FirstMaxChild(t, i, explore, scores, j);
      cs[j]
  }

  /** The first maximal score position names the first maximal child. */
  lemma FirstMaxChild(t: Tree, i: nat, explore: Exploration, scores: seq<real>, j: nat)
    requires Valid(t) && i < |t| && ChildrenVisited(t, i)
    requires |scores| == |t[i].childs|
    requires forall k :: 0 <= k < |scores| ==> scores[k] == ChildScore(t, i, t[i].childs[k], explore)
    requires IsFirstMax(scores, j)
    ensures t[i].childs[j] < |t| && t[t[i].childs[j]].parent == Some(i) && i < t[i].childs[j]
    ensures forall c :: c in t[i].childs ==>
              ChildScore(t, i, c, explore) <= ChildScore(t, i, t[i].childs[j], explore)
    ensures forall c :: c in t[i].childs && c < t[i].childs[j] ==>
              ChildScore(t, i, c, explore) < ChildScore(t, i, t[i].childs[j], explore)
  {
    var cs := t[i].childs;
    forall c | c in cs
      ensures ChildScore(t, i, c, explore) <= ChildScore(t, i, cs[j], explore)
      ensures c < cs[j] ==> ChildScore(t, i, c, explore) < ChildScore(t, i, cs[j], explore)
    {
      var k :| 0 <= k < |cs| && cs[k] == c;
      assert scores[k] <= scores[j];
      if j < k {
        assert cs[j] < cs[k];
      }
    }
  }
}
