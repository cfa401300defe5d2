/** The select-then-expand half of one search iteration: descend from a node
    by repeated `select_child` while the current node is fully expanded and
    has children, then expand at most one new child. */
module TreePolicy {
  import opened Options
  import opened Arena
  import opened Uct
  import opened Selection

  /** The descent may stop here: the node can still grow, or it has no
      children to choose from. */
  predicate StopsDescent(n: Node) { CanAddChild(n) || IsLeaf(n) }

  /** One iteration of the descent loop moves from `a` to `b`: `a` is fully
      expanded and has children, all of them visited, and `b` is the child
      `select_child` picks. */
  ghost predicate SelectionStep(t: Tree, a: nat, b: nat, explore: Exploration)
    requires Valid(t) && a < |t|
  {
    && !StopsDescent(t[a])
    && b in t[a].childs
    && ChildrenVisited(t, a)
    && b == SelectChild(t, a, explore)
  }

  /** The nodes the descent loop visits from `i`, in order; the last one is
      where it stops. */
  function Descend(t: Tree, i: nat, explore: Exploration): (path: seq<nat>)
    requires Valid(t) && Visited(t) && i < |t|
    ensures |path| >= 1 && path[0] == i
    ensures forall k :: 0 <= k < |path| ==> i <= path[k] < |t|
    ensures StopsDescent(t[path[|path| - 1]])
    ensures forall k :: 0 <= k < |path| - 1 ==> SelectionStep(t, path[k], path[k + 1], explore)
    decreases |t| - i
  {
    VisitedChildren(t, i);
    if StopsDescent(t[i]) then [i]
    else
      var rest := Descend(t, SelectChild(t, i, explore), explore);
      DescendStep(t, i, explore, rest);
      [i] + rest
  }

  /** One more selection step in front of a descent path is still a descent
      path. */
  lemma DescendStep(t: Tree, i: nat, explore: Exploration, rest: seq<nat>)
    requires Valid(t) && i < |t| && ChildrenVisited(t, i) && !StopsDescent(t[i])
    requires |rest| >= 1 && rest[0] == SelectChild(t, i, explore)
    requires forall k :: 0 <= k < |rest| ==> rest[0] <= rest[k] < |t|
    requires forall k :: 0 <= k < |rest| - 1 ==> SelectionStep(t, rest[k], rest[k + 1], explore)
    ensures forall k :: 0 <= k < |rest| + 1 ==> i <= ([i] + rest)[k] < |t|
    ensures forall k :: 0 <= k < |rest| ==>
              SelectionStep(t, ([i] + rest)[k], ([i] + rest)[k + 1], explore)
  {
    var path := [i] + rest;
    forall k | 0 <= k < |rest| + 1
      ensures i <= path[k] < |t|
    {
      if k > 0 {
        assert path[k] == rest[k - 1];
      }
    }
    forall k | 0 <= k < |rest|
      ensures SelectionStep(t, path[k], path[k + 1], explore)
    {
      if k > 0 {
        assert path[k] == rest[k - 1] && path[k + 1] == rest[k];
      }
    }
  }

  /** The expand step: a node that can grow gets one new child, chosen by
      `pick` among its untried moves, and that child is the node to
      simulate; any other node is simulated itself. */
  function Expand(t: Tree, i: nat, pick: nat, childMoves: seq<Move>): (r: (Tree, nat))
    requires Valid(t) && i < |t|
    ensures Valid(r.0) && r.1 < |r.0|
    ensures !CanAddChild(t[i]) ==> r == (t, i)
    ensures CanAddChild(t[i]) ==>
              && r.1 == |t| && |r.0| == |t| + 1
              && r.0[r.1].parent == Some(i) && r.0[r.1].nGames == 0
              && r.0[r.1].move.Some? && r.0[r.1].move.value in t[i].untried
              && |r.0[i].untried| == |t[i].untried| - 1
              && r.0[i].childs == t[i].childs + [r.1]
    ensures forall j :: 0 <= j < |t| ==>
              && r.0[j].nGames == t[j].nGames && r.0[j].wins == t[j].wins
              && r.0[j].parent == t[j].parent && r.0[j].move == t[j].move
              && t[j].childs <= r.0[j].childs
    ensures forall j :: 0 <= j < |t| && j != i ==> r.0[j] == t[j]
  {
    if CanAddChild(t[i]) then
      (AddChild(t, i, pick % |t[i].untried|, childMoves), |t|)
    else (t, i)
  }

  /** Descent from the root followed by the expand step: the tree after
      expansion and the node whose rollout is run next. */
  function SelectAndExpand(t: Tree, pick: nat, childMoves: seq<Move>, explore: Exploration): (r: (Tree, nat))
    requires Valid(t) && Visited(t)
    ensures Valid(r.0) && r.1 < |r.0|
    ensures r.1 == |t| || (r.1 < |t| && !CanAddChild(t[r.1]) && IsLeaf(t[r.1]) && r.0 == t)
    ensures r.1 == |t| ==> |r.0| == |t| + 1 && r.0[r.1].nGames == 0
    ensures forall j :: 0 <= j < |t| ==>
              && r.0[j].nGames == t[j].nGames && r.0[j].wins == t[j].wins
              && r.0[j].parent == t[j].parent && r.0[j].move == t[j].move
              && t[j].childs <= r.0[j].childs
    ensures !CanAddChild(t[0]) ==> r.0[0] == t[0]
  {
    var path := Descend(t, 0, explore);
    Expand(t, path[|path| - 1], pick, childMoves)
  }
}
