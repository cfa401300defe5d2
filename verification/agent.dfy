/** `MonteCarloAgent.select_move`: the terminal-state check, the root phase
    that evaluates every first move once, the search loop, and the final
    per-move aggregation. Randomness and the game engine are inputs: the
    engine's valid moves, one rollout outcome per root child, and one `Draw`
    per loop iteration. */
module Agent {
  import opened Options
  import opened Arena
  import opened Uct
  import opened TreePolicy
  import opened Backprop
  import opened Aggregation

  datatype SearchError = GameOver

  /** What one loop iteration takes from randomness and the engine: which
      untried move `add_random_child` picks (counted modulo the number of
      untried moves), the valid moves of the state it reaches, and the
      outcome of the rollout. */
  datatype Draw = Draw(pick: nat, childMoves: seq<Move>, won: bool)

  /** What holds of the tree between loop iterations. */
  ghost predicate SearchInvariant(t: Tree) {
    Valid(t) && Visited(t) && Bounded(t) && t[0].untried == []
  }

  function Min(a: nat, b: nat): nat { if a <= b then a else b }

  /** The number of won rollouts among the outcomes. */
  function Wins(rs: seq<bool>): (w: nat)
    ensures w <= |rs|
    decreases |rs|
  {
    if |rs| == 0 then 0 else Reward(rs[0]) + Wins(rs[1..])
  }

  /** The recording loop over `zip(cs, rs)`: each pair records its outcome
      on its child and on the root. */
  function RecordPairs(t: Tree, cs: seq<nat>, rs: seq<bool>): (u: Tree)
    requires |t| > 0
    requires forall k :: 0 <= k < |cs| ==> 0 < cs[k] < |t|
    requires forall k1, k2 :: 0 <= k1 < k2 < |cs| ==> cs[k1] < cs[k2]
    ensures SameShape(t, u)
    ensures u[0].nGames == t[0].nGames + Min(|cs|, |rs|)
    ensures u[0].wins == t[0].wins + Wins(rs[..Min(|cs|, |rs|)])
    ensures forall k :: 0 <= k < Min(|cs|, |rs|) ==> u[cs[k]] == Record(t[cs[k]], rs[k])
    ensures forall j :: 0 < j < |t| && j !in cs[..Min(|cs|, |rs|)] ==> u[j] == t[j]
    decreases |cs|
  {
    if |cs| == 0 || |rs| == 0 then t
    else
      var t1 := t[cs[0] := Record(t[cs[0]], rs[0])][0 := Record(t[0], rs[0])];
      assert forall k :: 0 <= k < |cs| - 1 ==> cs[1..][k] == cs[k + 1];
      var u := RecordPairs(t1, cs[1..], rs[1..]);
      RecordPairsStep(t, t1, u, cs, rs);
      u
  }

  lemma RecordPairsStep(t: Tree, t1: Tree, u: Tree, cs: seq<nat>, rs: seq<bool>)
    requires |t| > 0 && |cs| > 0 && |rs| > 0
    requires forall k :: 0 <= k < |cs| ==> 0 < cs[k] < |t|
    requires forall k1, k2 :: 0 <= k1 < k2 < |cs| ==> cs[k1] < cs[k2]
    requires t1 == t[cs[0] := Record(t[cs[0]], rs[0])][0 := Record(t[0], rs[0])]
    requires SameShape(t1, u)
    requires u[0].nGames == t1[0].nGames + Min(|cs| - 1, |rs| - 1)
    requires u[0].wins == t1[0].wins + Wins(rs[1..][..Min(|cs| - 1, |rs| - 1)])
    requires forall k :: 0 <= k < Min(|cs| - 1, |rs| - 1) ==> u[cs[1..][k]] == Record(t1[cs[1..][k]], rs[1..][k])
    requires forall j :: 0 < j < |t1| && j !in cs[1..][..Min(|cs| - 1, |rs| - 1)] ==> u[j] == t1[j]
    ensures SameShape(t, u)
    ensures u[0].nGames == t[0].nGames + Min(|cs|, |rs|)
    ensures u[0].wins == t[0].wins + Wins(rs[..Min(|cs|, |rs|)])
    ensures forall k :: 0 <= k < Min(|cs|, |rs|) ==> u[cs[k]] == Record(t[cs[k]], rs[k])
    ensures forall j :: 0 < j < |t| && j !in cs[..Min(|cs|, |rs|)] ==> u[j] == t[j]
  {
    var m := Min(|cs|, |rs|);
    RecordPairsShape(t, t1, u, cs, rs);
    WinsFirst(rs, m);
    RecordPairsChildren(t, t1, u, cs, rs);
    RecordPairsOthers(t, t1, u, cs, rs);
  }

  lemma WinsFirst(rs: seq<bool>, m: nat)
    requires 0 < m <= |rs|
    ensures Wins(rs[..m]) == Reward(rs[0]) + Wins(rs[1..][..m - 1])
  {
    assert rs[..m][1..] == rs[1..][..m - 1];
  }

  lemma RecordPairsShape(t: Tree, t1: Tree, u: Tree, cs: seq<nat>, rs: seq<bool>)
    requires |t| > 0 && |cs| > 0 && |rs| > 0 && 0 < cs[0] < |t|
    requires t1 == t[cs[0] := Record(t[cs[0]], rs[0])][0 := Record(t[0], rs[0])]
    requires SameShape(t1, u)
    ensures SameShape(t, u)
  {
    forall j | 0 <= j < |t| ensures SameLinks(t[j], u[j]) {
      assert SameLinks(t[j], t1[j]) && SameLinks(t1[j], u[j]);
    }
  }

  lemma RecordPairsChildren(t: Tree, t1: Tree, u: Tree, cs: seq<nat>, rs: seq<bool>)
    requires |t| > 0 && |cs| > 0 && |rs| > 0
    requires forall k :: 0 <= k < |cs| ==> 0 < cs[k] < |t|
    requires forall k1, k2 :: 0 <= k1 < k2 < |cs| ==> cs[k1] < cs[k2]
    requires t1 == t[cs[0] := Record(t[cs[0]], rs[0])][0 := Record(t[0], rs[0])]
    requires |u| == |t|
    requires forall k :: 0 <= k < Min(|cs| - 1, |rs| - 1) ==> u[cs[1..][k]] == Record(t1[cs[1..][k]], rs[1..][k])
    requires forall j :: 0 < j < |t1| && j !in cs[1..][..Min(|cs| - 1, |rs| - 1)] ==> u[j] == t1[j]
    ensures forall k :: 0 <= k < Min(|cs|, |rs|) ==> u[cs[k]] == Record(t[cs[k]], rs[k])
  {
    var m := Min(|cs|, |rs|);
    forall k | 0 <= k < m ensures u[cs[k]] == Record(t[cs[k]], rs[k]) {
      if k > 0 {
        assert cs[1..][k - 1] == cs[k] && rs[1..][k - 1] == rs[k];
        assert cs[0] < cs[k];
      } else {
        var later := cs[1..][..m - 1];
        forall n | 0 <= n < |later| ensures later[n] != cs[0] {
          assert later[n] == cs[n + 1];
        }
      }
    }
  }

  lemma RecordPairsOthers(t: Tree, t1: Tree, u: Tree, cs: seq<nat>, rs: seq<bool>)
    requires |t| > 0 && |cs| > 0 && |rs| > 0
    requires forall k :: 0 <= k < |cs| ==> 0 < cs[k] < |t|
    requires t1 == t[cs[0] := Record(t[cs[0]], rs[0])][0 := Record(t[0], rs[0])]
    requires |u| == |t|
    requires forall j :: 0 < j < |t1| && j !in cs[1..][..Min(|cs| - 1, |rs| - 1)] ==> u[j] == t1[j]
    ensures forall j :: 0 < j < |t| && j !in cs[..Min(|cs|, |rs|)] ==> u[j] == t[j]
  {
    var m := Min(|cs|, |rs|);
    assert cs[..m] == [cs[0]] + cs[1..][..m - 1];
  }

  /** The root phase: after the (sequential) rollouts of the root's children,
      every child receives its own outcome once and the root receives every
      outcome once. */
  function RecordRootPhase(t: Tree, rewards: seq<bool>): (u: Tree)
    requires Valid(t)
    ensures SameShape(t, u) && Valid(u)
    ensures var m := Min(|t[0].childs|, |rewards|);
            && u[0].nGames == t[0].nGames + m
            && u[0].wins == t[0].wins + Wins(rewards[..m])
            && (forall k :: 0 <= k < m ==> u[t[0].childs[k]] == Record(t[t[0].childs[k]], rewards[k]))
            && (forall j :: 0 < j < |t| && j !in t[0].childs[..m] ==> u[j] == t[j])
  {
    var cs := t[0].childs;
    forall k | 0 <= k < |cs| ensures 0 < cs[k] < |t| {
      assert t[cs[k]].parent == Some(0);
    }
    var u := RecordPairs(t, cs, rewards);
    ValidShape(t, u);
    u
  }

  /** One iteration of the search loop: descend and expand, run the rollout
      (its outcome is `d.won`), and backpropagate. */
  function Iterate(t: Tree, d: Draw, explore: Exploration): (u: Tree)
    requires SearchInvariant(t)
    ensures SearchInvariant(u)
    ensures |t| <= |u| <= |t| + 1
    ensures u[0].childs == t[0].childs && u[0].nGames == t[0].nGames + 1
    ensures forall j :: 0 <= j < |t| ==> u[j].move == t[j].move && t[j].nGames <= u[j].nGames
    ensures forall j :: 0 <= j < |t| ==> u[j].parent == t[j].parent && t[j].childs <= u[j].childs
  {
    var (t1, node) := SelectAndExpand(t, d.pick, d.childMoves, explore);
    var u := Backpropagate(t1, node, d.won);
    BackpropagateRecords(t1, node, d.won);
    IterateKeeps(t, t1, node, u, d.won);
    u
  }

  lemma IterateKeeps(t: Tree, t1: Tree, node: nat, u: Tree, won: bool)
    requires SearchInvariant(t) && Valid(t1) && node < |t1|
    requires node == |t| || (node < |t| && t1 == t)
    requires node == |t| ==> |t1| == |t| + 1 && t1[node].nGames == 0 && t1[node].wins == 0
    requires forall j :: 0 <= j < |t| ==>
               && t1[j].nGames == t[j].nGames && t1[j].wins == t[j].wins
               && t1[j].parent == t[j].parent && t1[j].move == t[j].move
    requires forall j :: 0 <= j < |t| ==> t[j].childs <= t1[j].childs
    requires t1[0] == t[0]
    requires SameShape(t1, u)
    requires forall j :: 0 <= j < |t1| ==> u[j] == t1[j] || u[j] == Record(t1[j], won)
    requires u[node] == Record(t1[node], won) && u[0] == Record(t1[0], won)
    ensures SearchInvariant(u)
    ensures |t| <= |u| <= |t| + 1
    ensures u[0].childs == t[0].childs && u[0].nGames == t[0].nGames + 1
    ensures forall j :: 0 <= j < |t| ==> u[j].move == t[j].move && t[j].nGames <= u[j].nGames
    ensures forall j :: 0 <= j < |t| ==> u[j].parent == t[j].parent && t[j].childs <= u[j].childs
  {
    ValidShape(t1, u);
    forall j | 0 <= j < |u|
      ensures u[j].wins <= u[j].nGames
      ensures 0 < j ==> u[j].nGames >= 1
      ensures j < |t| ==> u[j].move == t[j].move && t[j].nGames <= u[j].nGames
      ensures j < |t| ==> u[j].parent == t[j].parent && t[j].childs <= u[j].childs
    {
      assert SameLinks(t1[j], u[j]);
      if j < |t| {
        assert t[j].wins <= t[j].nGames;
      }
    }
    assert SameLinks(t1[0], u[0]);
  }

  /** The search loop, one iteration per draw. */
  function Search(t: Tree, draws: seq<Draw>, explore: Exploration): (u: Tree)
    requires SearchInvariant(t)
    ensures SearchInvariant(u)
    ensures |t| <= |u|
    ensures u[0].childs == t[0].childs && u[0].nGames == t[0].nGames + |draws|
    ensures forall j :: 0 <= j < |t| ==>
              u[j].move == t[j].move && u[j].parent == t[j].parent && t[j].childs <= u[j].childs
    decreases |draws|
  {
    if |draws| == 0 then t
    else
      var t1 := Iterate(t, draws[0], explore);
      var u := Search(t1, draws[1..], explore);
      SearchStep(t, t1, u);
      u
  }

  lemma SearchStep(t: Tree, t1: Tree, u: Tree)
    requires |t| <= |t1| <= |u|
    requires forall j :: 0 <= j < |t| ==>
               t1[j].move == t[j].move && t1[j].parent == t[j].parent && t[j].childs <= t1[j].childs
    requires forall j :: 0 <= j < |t1| ==>
               u[j].move == t1[j].move && u[j].parent == t1[j].parent && t1[j].childs <= u[j].childs
    ensures forall j :: 0 <= j < |t| ==>
              u[j].move == t[j].move && u[j].parent == t[j].parent && t[j].childs <= u[j].childs
  {
    forall j | 0 <= j < |t|
      ensures u[j].move == t[j].move && u[j].parent == t[j].parent && t[j].childs <= u[j].childs
    {
      var a, b, c := t[j].childs, t1[j].childs, u[j].childs;
      assert a <= b && b <= c;
      assert b[..|a|] == a && c[..|b|] == b;
      assert c[..|a|] == b[..|a|];
    }
  }

  /** The (move, win rate) of every root child, in child order. */
  function RootEntries(t: Tree): (e: seq<(Move, real)>)
    requires SearchInvariant(t)
    ensures |e| == |t[0].childs|
    ensures forall k {:trigger e[k]} :: 0 <= k < |e| ==>
              && t[t[0].childs[k]].move == Some(e[k].0)
              && t[t[0].childs[k]].nGames > 0 && e[k].1 == WinRate(t[t[0].childs[k]])
              && 0.0 <= e[k].1 <= 1.0
  {
    var cs := t[0].childs;
    forall k | 0 <= k < |cs| ensures 0 < cs[k] < |t| {
      assert t[cs[k]].parent == Some(0);
    }
    seq(|cs|, k requires 0 <= k < |cs| => (t[cs[k]].move.value, WinRate(t[cs[k]])))
  }

  /** The tree `select_move` has built when the search budget runs out: the
      root with one child per valid move, the root phase recorded, then one
      loop iteration per draw. */
  function GrowTree(expansions: seq<(Move, seq<Move>)>, rewards: seq<bool>, draws: seq<Draw>,
                    explore: Exploration): (t: Tree)
    requires |rewards| == |expansions|
    ensures SearchInvariant(t)
    ensures |t[0].childs| == |expansions|
    ensures forall k :: 0 <= k < |expansions| ==> t[t[0].childs[k]].move == Some(expansions[k].0)
    ensures t[0].nGames == |expansions| + |draws|
  {
    var t1 := RecordRootPhase(RootTree(expansions), rewards);
    RootPhaseReady(expansions, rewards);
    Search(t1, draws, explore)
  }

  /** After the root phase every root child has been visited once, and the
      children still carry the engine's moves in order. */
  lemma RootPhaseReady(expansions: seq<(Move, seq<Move>)>, rewards: seq<bool>)
    requires |rewards| == |expansions|
    ensures var t1 := RecordRootPhase(RootTree(expansions), rewards);
            && SearchInvariant(t1)
            && |t1[0].childs| == |expansions|
            && forall k :: 0 <= k < |expansions| ==> t1[t1[0].childs[k]].move == Some(expansions[k].0)
  {
    var t0 := RootTree(expansions);
    var t1 := RecordRootPhase(t0, rewards);
    RootChildrenRecorded(expansions, rewards);
    assert SameLinks(t0[0], t1[0]);
    assert t1[0].wins <= t1[0].nGames;
    assert Visited(t1) && Bounded(t1);
  }

  lemma RootChildrenRecorded(expansions: seq<(Move, seq<Move>)>, rewards: seq<bool>)
    requires |rewards| == |expansions|
    ensures var t1 := RecordRootPhase(RootTree(expansions), rewards);
            forall j :: 0 < j < |t1| ==>
              && t1[j].nGames == 1 && t1[j].wins <= 1
              && t1[j].move == RootTree(expansions)[j].move
  {
    forall j | 0 < j <= |expansions|
      ensures var t1 := RecordRootPhase(RootTree(expansions), rewards);
              && t1[j].nGames == 1 && t1[j].wins <= 1
              && t1[j].move == RootTree(expansions)[j].move
    {
      RootChildRecorded(expansions, rewards, j);
    }
  }


  /** After the root phase each root child holds exactly its own rollout. */
  lemma RootChildRecorded(expansions: seq<(Move, seq<Move>)>, rewards: seq<bool>, j: nat)
    requires |rewards| == |expansions| && 0 < j <= |expansions|
    ensures var t1 := RecordRootPhase(RootTree(expansions), rewards);
            && |t1| == |expansions| + 1
            && t1[j].nGames == 1 && t1[j].wins <= 1
            && t1[j].move == RootTree(expansions)[j].move
  {
    var t0 := RootTree(expansions);
    var cs := t0[0].childs;
    assert Min(|cs|, |rewards|) == |cs|;
    assert cs[j - 1] == j;
    assert t0[j].nGames == 0;
  }


  /** The labels of the final root entries are exactly the engine's moves. */
  lemma RootLabels(expansions: seq<(Move, seq<Move>)>, t: Tree)
    requires SearchInvariant(t)
    requires |t[0].childs| == |expansions|
    requires forall k :: 0 <= k < |expansions| ==> t[t[0].childs[k]].move == Some(expansions[k].0)
    ensures LabelSet(RootEntries(t)) == Keys(expansions)
  {
    var e := RootEntries(t);
    forall k | 0 <= k < |e| ensures e[k].0 == expansions[k].0 {
      assert Some(e[k].0) == Some(expansions[k].0);
    }
    SameLabels(e, expansions);
  }

  /** Entries labelled position by position like the expansions carry
      exactly the expanded moves. */
  lemma SameLabels(e: seq<(Move, real)>, expansions: seq<(Move, seq<Move>)>)
    requires |e| == |expansions| && forall k :: 0 <= k < |e| ==> e[k].0 == expansions[k].0
    ensures LabelSet(e) == Keys(expansions)
  {
    LabelSetIsLabels(e);
    forall x | x in Keys(expansions) ensures x in LabelSet(e) {
      var k :| 0 <= k < |expansions| && expansions[k].0 == x;
      assert e[k].0 == x;
    }
  }

  /** `select_move`: raise on a state that cannot play before any tree is
      built; otherwise grow the tree and return the move whose root
      children have the best mean win rate, the move met first among equals. */
  function SelectMove(canPlay: bool, expansions: seq<(Move, seq<Move>)>, rewards: seq<bool>,
                      draws: seq<Draw>, explore: Exploration): (r: Result<Option<Move>, SearchError>)
    requires |rewards| == |expansions|
    ensures !canPlay <==> r == Err(GameOver)
    ensures canPlay ==> r.Ok? && (r.value.Some? <==> |expansions| > 0)
    ensures canPlay && |expansions| == 1 ==> r == Ok(Some(expansions[0].0))
    ensures canPlay && r.Ok? && r.value.Some? ==> r.value.value in Keys(expansions)
    ensures canPlay && r.Ok? && r.value.Some? ==>
              IsFirstBestLabel(RootEntries(GrowTree(expansions, rewards, draws, explore)), r.value.value)
  {
    if !canPlay then Err(GameOver)
    else
      var t := GrowTree(expansions, rewards, draws, explore);
      var e := RootEntries(t);
      ChosenMove(expansions, t);
      BestMoveIsFirstBest(e);
      Ok(BestMove(e))
  }

  /** What the aggregation returns on a grown tree. */
  lemma ChosenMove(expansions: seq<(Move, seq<Move>)>, t: Tree)
    requires SearchInvariant(t)
    requires |t[0].childs| == |expansions|
    requires forall k :: 0 <= k < |expansions| ==> t[t[0].childs[k]].move == Some(expansions[k].0)
    ensures var b := BestMove(RootEntries(t));
            && (b.Some? <==> |expansions| > 0)
            && (|expansions| == 1 ==> b == Some(expansions[0].0))
            && (b.Some? ==> b.value in Keys(expansions))
  {
    var e := RootEntries(t);
    RootLabels(expansions, t);
    BestMoveOfRates(e);
    if |e| == 1 {
      assert t[t[0].childs[0]].move == Some(expansions[0].0);
    }
  }
}
