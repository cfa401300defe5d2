/** The search tree of one move decision, kept as an arena: a sequence of
    nodes addressed by index. The root sits at index 0, every node names its
    parent by index and its children by an insertion-ordered list of indices,
    and a node is always created after its parent, so parent indices are
    smaller than their children's. */
module Arena {
  import opened Options

  /** A move label as the game engine numbers its directions. */
  type Move = int

  datatype Node = Node(
    parent: Option<nat>,   // None only for the root
    childs: seq<nat>,      // children, in the order they were added
    move: Option<Move>,    // the move that produced this node; None for the root
    untried: seq<Move>,    // valid moves not yet materialised as children
    nGames: nat,           // rollouts recorded on this node
    wins: nat              // recorded rollouts that were won
  )

  type Tree = seq<Node>

  /** `can_add_child`: some valid move has no child yet. */
  predicate CanAddChild(n: Node) { |n.untried| > 0 }

  /** `is_leaf`: the node has no children. */
  predicate IsLeaf(n: Node) { |n.childs| == 0 }

  /** The amount a rollout outcome adds to `wins`. */
  function Reward(won: bool): nat { if won then 1 else 0 }

  /** Two nodes agree on everything but their statistics. */
  predicate SameLinks(a: Node, b: Node) {
    a.parent == b.parent && a.childs == b.childs && a.move == b.move && a.untried == b.untried
  }

  /** Two trees have the same nodes and edges; only statistics may differ. */
  ghost predicate SameShape(t: Tree, u: Tree) {
    |t| == |u| && forall j :: 0 <= j < |t| ==> SameLinks(t[j], u[j])
  }

  /** Only the root lacks a parent and a move; every other node's parent was
      created before it. */
  ghost predicate ParentsEarlier(t: Tree) {
    && |t| > 0
    && t[0].parent.None? && t[0].move.None?
    && (forall j :: 0 < j < |t| ==> t[j].parent.Some? && t[j].parent.value < j && t[j].move.Some?)
  }

  /** Every listed child exists and names the lister as its parent. */
  ghost predicate ChildLinks(t: Tree) {
    forall i, k :: 0 <= i < |t| && 0 <= k < |t[i].childs| ==>
      t[i].childs[k] < |t| && t[t[i].childs[k]].parent == Some(i)
  }

  /** Every non-root node is listed among its parent's children. */
  ghost predicate Owned(t: Tree) {
    forall j, p :: 0 <= p < j < |t| && t[j].parent == Some(p) ==> j in t[p].childs
  }

  /** Child lists are in creation order, hence free of repetitions. */
  ghost predicate ChildrenOrdered(t: Tree) {
    forall i, k1, k2 :: 0 <= i < |t| && 0 <= k1 < k2 < |t[i].childs| ==>
      t[i].childs[k1] < t[i].childs[k2]
  }

  /** Structural well-formedness of the arena. */
  ghost predicate Valid(t: Tree) {
    ParentsEarlier(t) && ChildLinks(t) && Owned(t) && ChildrenOrdered(t)
  }

  /** Every node but the root has been recorded at least once. */
  ghost predicate Visited(t: Tree) {
    forall j :: 0 < j < |t| ==> t[j].nGames >= 1
  }

  /** No node has more wins than games. */
  ghost predicate Bounded(t: Tree) {
    forall j :: 0 <= j < |t| ==> t[j].wins <= t[j].nGames
  }

  /** `record`: one more rollout with the given outcome. */
  function Record(n: Node, won: bool): (r: Node)
    ensures SameLinks(n, r)
    ensures r.nGames == n.nGames + 1
    ensures r.wins - n.wins == Reward(won) <= 1
    ensures n.wins <= n.nGames ==> r.wins <= r.nGames
  {
    n.(nGames := n.nGames + 1, wins := n.wins + Reward(won))
  }

  /** `get_stat`: the fraction of recorded rollouts that were won; undefined
      on a node never recorded. */
  function WinRate(n: Node): (r: real)
    requires n.nGames > 0
    ensures 0.0 <= r
    ensures r * (n.nGames as real) == n.wins as real
    ensures n.wins <= n.nGames ==> r <= 1.0
  {
    (n.wins as real) / (n.nGames as real)
  }

  /** Validity depends only on the links, never on the statistics. */
  lemma ValidShape(t: Tree, u: Tree)
    requires Valid(t) && SameShape(t, u)
    ensures Valid(u)
  {
    forall j | 0 <= j < |t|
      ensures t[j].parent == u[j].parent && t[j].childs == u[j].childs && t[j].move == u[j].move
    {
      assert SameLinks(t[j], u[j]);
    }
  }

  /** `add_random_child` once the random choice is made: the move at `pick`
      leaves the parent's untried moves and becomes a new, unvisited child at
      the end of the arena and of the parent's child list. `childMoves` is what the
      engine reports as the new state's valid moves. */
  function AddChild(t: Tree, i: nat, pick: nat, childMoves: seq<Move>): (u: Tree)
    requires Valid(t) && i < |t| && pick < |t[i].untried|
    ensures Valid(u)
    ensures |u| == |t| + 1
    ensures u[|t|] == Node(Some(i), [], Some(t[i].untried[pick]), childMoves, 0, 0)
    ensures u[i].childs == t[i].childs + [|t|]
    ensures multiset(u[i].untried) + multiset{t[i].untried[pick]} == multiset(t[i].untried)
    ensures u[i].parent == t[i].parent && u[i].move == t[i].move
    ensures u[i].nGames == t[i].nGames && u[i].wins == t[i].wins
    ensures forall j :: 0 <= j < |t| && j != i ==> u[j] == t[j]
  {
    var n := t[i];
    var rest := n.untried[..pick] + n.untried[pick + 1..];
    assert n.untried == n.untried[..pick] + [n.untried[pick]] + n.untried[pick + 1..];
    var u := t[i := n.(childs := n.childs + [|t|], untried := rest)]
              + [Node(Some(i), [], Some(n.untried[pick]), childMoves, 0, 0)];
    AppendChildValid(t, i, u);
    u
  }

  /** The facts about an arena `u` that is `t` with one new child of `i`
      appended. */
  ghost predicate Appended(t: Tree, i: nat, u: Tree) {
    && i < |t| && |u| == |t| + 1
    && u[|t|].parent == Some(i) && u[|t|].childs == [] && u[|t|].move.Some?
    && u[i].parent == t[i].parent && u[i].move == t[i].move
    && u[i].childs == t[i].childs + [|t|]
    && forall j :: 0 <= j < |t| && j != i ==> u[j] == t[j]
  }

  /** Appending a new child of `i` at the end of the arena keeps it valid. */
  lemma AppendChildValid(t: Tree, i: nat, u: Tree)
    requires Valid(t) && Appended(t, i, u)
    ensures Valid(u)
  {
    AppendParents(t, i, u);
    AppendLinks(t, i, u);
    AppendOwned(t, i, u);
    AppendOrdered(t, i, u);
  }

  lemma AppendParents(t: Tree, i: nat, u: Tree)
    requires Valid(t) && Appended(t, i, u)
    ensures ParentsEarlier(u)
  {
    forall j | 0 < j < |u|
      ensures u[j].parent.Some? && u[j].parent.value < j && u[j].move.Some?
    {
      if j < |t| && j != i {
        assert u[j] == t[j];
      }
    }
  }

  lemma AppendLinks(t: Tree, i: nat, u: Tree)
    requires Valid(t) && Appended(t, i, u)
    ensures ChildLinks(u)
  {
    forall a, k | 0 <= a < |u| && 0 <= k < |u[a].childs|
      ensures u[a].childs[k] < |u| && u[u[a].childs[k]].parent == Some(a)
    {
      if a == i && k == |t[i].childs| {
        assert u[a].childs[k] == |t|;
      } else {
        assert a < |t|;
        var c := t[a].childs[k];
        assert u[a].childs[k] == c;
        assert c < |t| && t[c].parent == Some(a);
        if c == i {
          assert u[c].parent == t[c].parent;
        } else {
          assert u[c] == t[c];
        }
      }
    }
  }

  lemma AppendOwned(t: Tree, i: nat, u: Tree)
    requires Valid(t) && Appended(t, i, u)
    requires ParentsEarlier(u)
    ensures Owned(u)
  {
    forall j, p | 0 <= p < j < |u| && u[j].parent == Some(p)
      ensures j in u[p].childs
    {
      if j < |t| {
        assert u[j].parent == t[j].parent by {
          if j != i { assert u[j] == t[j]; }
        }
        assert j in t[p].childs;
        if p == i {
          assert u[p].childs == t[p].childs + [|t|];
        } else {
          assert u[p] == t[p];
        }
      } else {
        assert u[i].childs[|t[i].childs|] == j;
      }
    }
  }

  lemma AppendOrdered(t: Tree, i: nat, u: Tree)
    requires Valid(t) && Appended(t, i, u)
    ensures ChildrenOrdered(u)
  {
    forall a, k1, k2 | 0 <= a < |u| && 0 <= k1 < k2 < |u[a].childs|
      ensures u[a].childs[k1] < u[a].childs[k2]
    {
      if a == i {
        if k2 == |t[i].childs| {
          assert u[a].childs[k1] == t[i].childs[k1] < |t|;
        } else {
          assert u[a].childs[k1] == t[i].childs[k1];
          assert u[a].childs[k2] == t[i].childs[k2];
        }
      } else if a < |t| {
        assert u[a] == t[a];
      }
    }
  }

  /** `Node(None, state)` followed by `add_all_childs`: a root with one
      child per valid move, in the engine's order, and nothing left to
      expand at the root. Each pair is a move and the valid moves of the
      state it leads to. */
  function RootTree(expansions: seq<(Move, seq<Move>)>): (t: Tree)
    ensures Valid(t)
    ensures |t| == |expansions| + 1
    ensures t[0].untried == [] && t[0].nGames == 0 && t[0].wins == 0
    ensures |t[0].childs| == |expansions|
    ensures forall k :: 0 <= k < |expansions| ==>
              t[0].childs[k] == k + 1
              && t[k + 1] == Node(Some(0), [], Some(expansions[k].0), expansions[k].1, 0, 0)
  {
    var n := |expansions|;
    var root := Node(None, seq(n, k requires 0 <= k < n => k + 1), None, [], 0, 0);
    var kids := seq(n, k requires 0 <= k < n =>
                      Node(Some(0), [], Some(expansions[k].0), expansions[k].1, 0, 0));
    var t := [root] + kids;
    RootTreeValid(expansions, t);
    t
  }

  lemma RootTreeValid(expansions: seq<(Move, seq<Move>)>, t: Tree)
    requires |t| == |expansions| + 1
    requires t[0] == Node(None, seq(|expansions|, k requires 0 <= k < |expansions| => k + 1), None, [], 0, 0)
    requires forall j :: 0 < j < |t| ==>
               t[j] == Node(Some(0), [], Some(expansions[j - 1].0), expansions[j - 1].1, 0, 0)
    ensures Valid(t)
  {
    assert ParentsEarlier(t);
    assert ChildLinks(t) by {
      forall a, k | 0 <= a < |t| && 0 <= k < |t[a].childs|
        ensures t[a].childs[k] < |t| && t[t[a].childs[k]].parent == Some(a)
      {
        assert a == 0;
      }
    }
    assert Owned(t) by {
      forall j, p | 0 <= p < j < |t| && t[j].parent == Some(p)
        ensures j in t[p].childs
      {
        assert t[0].childs[j - 1] == j;
      }
    }
    assert ChildrenOrdered(t) by {
      forall a, k1, k2 | 0 <= a < |t| && 0 <= k1 < k2 < |t[a].childs|
        ensures t[a].childs[k1] < t[a].childs[k2]
      {
        assert a == 0;
      }
    }
  }
}
