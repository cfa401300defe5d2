# Monte Carlo move selection for 2048, in Dafny

This project models the move selector `MonteCarloAgent` of the 2048 agent in
`main.py`. For every decision the agent builds a fresh search tree:

- It creates a root for the current state and expands every valid first move.
- It runs one rollout per first move and records each outcome on that child
  and on the root.
- Until its time budget runs out, it repeats Monte Carlo Tree Search
  iterations. Each iteration descends by UCT score (`select_child`) while the
  current node is fully expanded and has children, expands one random untried
  move, runs a rollout, and records the outcome on every node from the
  simulated one up to the root.
- Finally it groups the root's children by move label, averages their win
  rates per label, and returns the label with the highest mean. Ties go to
  the label seen first.

The tree is an arena: a sequence of nodes with the root at index 0. Each node
keeps its parent index, its child indices, the move that led to it, its
untried moves, its visit count `nGames` and its win count `wins`. Win rates are
exact ratios of counts (`real`). In the exploration term `sqrt(log(total) /
visits)`, the division is exact and `log` and `sqrt` are abstract functions.
Only three facts are assumed of them: the logarithm of a count of at least
one is non-negative, and the square root is non-negative and monotone on
non-negative arguments. Non-negativity of the term is what the search needs:
it makes every score exceed the initial maximum of -1. Monotonicity lets the
model prove that the term does not grow with the node's own visits.

Randomness and the game engine are inputs:

- `expansions`: the valid first moves, each with the untried moves of the
  resulting child.
- `rewards`: one rollout outcome per root child.
- `draws`: one `Draw` per loop iteration. A `Draw` holds the untried-move
  pick, the untried moves of the new child, and the rollout outcome.

Modules follow the program's structure:

- `Arena`: nodes, tree well-formedness, `record`, `get_stat`, adding a child,
  and the root expansion.
- `Uct`: `uct_score`.
- `Argmax`: the first-wins running maximum that starts at -1. Both
  `select_child` and the final aggregation use it.
- `Selection`: `select_child`.
- `TreePolicy`: the descent loop and the expand step.
- `Backprop`: the walk up `parent` links.
- `Aggregation`: grouping by move label and choosing the best mean.
- `Agent`: `select_move` as a whole.

The `total` in a child's score is the sum of its siblings' visit counts
(`main.py:52`), not the parent's own visit count.

## Model

| member | source | states |
|---|---|---|
| Uct.UctScore | main.py:20-22 | the score is defined only when the sibling total and the node's visits are both at least 1, where `log` and the division are defined; with a non-negative weight it is at least the win rate, because the exploration bonus is never negative |
| Uct.UctMonotoneInRate | main.py:20-22 | for fixed counts of at least 1 and a fixed weight, a higher win rate never lowers the score, and a strictly higher one strictly raises it |
| Uct.UctNonIncreasingInVisits | main.py:20-22 | for a fixed sibling total, a node with more visits never scores higher than the same win rate with fewer visits, because the non-negative logarithm is divided by a larger count before the monotone square root |
| Arena.Record | main.py:89-90 | `record` keeps the node's links, adds one visit and adds the reward (1 for a win, 0 otherwise) to the wins, so `wins <= nGames` is preserved |
| Arena.WinRate | main.py:57 | `get_stat` of a visited node is a non-negative rate whose product with the visit count is the win count, and it is at most 1 when wins do not exceed visits |
| Arena.AddChild | main.py:106-107 | `add_random_child` appends one new unvisited node whose parent is the expanded node, adds it at the end of that node's children, removes exactly one occurrence of the chosen move from the untried moves, leaves every other node unchanged, and keeps the tree well formed |
| Arena.RootTree | main.py:69-79 | a fresh root with all first moves expanded is a well-formed tree: children 1..n in move order, each unvisited with its move and untried moves, and the root with nothing left to try |
| Argmax.RunningMax | main.py:54-60 | the scan with a running maximum that starts at -1 and uses strict `>` finds nothing exactly when every value is at most -1; otherwise it returns the first position holding the maximum, and that maximum exceeds -1 |
| Selection.SumVisits | main.py:52 | the sibling total is at least every listed child's visit count |
| Selection.ChildScore | main.py:57 | a child's score is at least its win rate, which is non-negative |
| Selection.SelectChild | main.py:48-62 | a node with no children selects itself; otherwise the result is one of its children, never missing, with the highest score among them, and every child before it in the list scores strictly lower |
| TreePolicy.Descend | main.py:99-102 | the descent starts at the given node and stays inside the tree; every step leaves a node that cannot add a child and has children, and moves to the child `select_child` picks; the last node can add a child or has no children |
| TreePolicy.Expand | main.py:106-107 | a node that can add a child gets exactly one new child, which becomes the node to simulate; any other node is simulated itself with the tree unchanged |
| TreePolicy.SelectAndExpand | main.py:98-107 | the node to simulate is either a fresh unvisited child or an existing node that cannot add a child and has no children; existing nodes keep their counts, parents and moves, and children are only appended |
| Backprop.PathToRoot | main.py:111-113 | the walk from a node follows `parent` links, starts at that node, ends at the root, and visits strictly decreasing indices, so it is finite and repeats no node |
| Backprop.Backpropagate | main.py:111-113 | every node on the walk to the root is recorded once with the outcome, every other node is unchanged, and the tree's shape and well-formedness are kept |
| Backprop.BackpropagateCount | main.py:111-113 | the nodes whose visit count changes are exactly the nodes on the walk, and there are as many of them as the walk is long |
| Backprop.BackpropagateRecords | main.py:111-113 | the root and the simulated node are both recorded, and `wins <= nGames` on every node survives backpropagation |
| Agent.RecordPairs | main.py:88-90 | the loop over `zip(children, rewards)` records the k-th outcome on the k-th child for as many pairs as the shorter list has; the root gains one visit per pair and the pair's wins; every other node is unchanged |
| Agent.RecordRootPhase | main.py:81-90 | after the root phase each root child has received its own outcome exactly once, the root's visits grew by the number of children recorded, its wins grew by the wins among those outcomes, and nothing else changed |
| Agent.Iterate | main.py:98-113 | one search iteration keeps the tree well formed, every non-root node visited and every `wins <= nGames`; it adds at most one node, adds one visit to the root, never changes the root's children, and never loses an existing node's visits, parent, move or children |
| Agent.Search | main.py:96-113 | after one iteration per draw the search invariant still holds, the root's visits grew by the number of iterations, and existing nodes keep their parents, moves and children |
| Agent.GrowTree | main.py:69-113 | the tree at the end of the search satisfies the search invariant, the root has one child per valid first move carrying that move, and the root was visited once per first move plus once per iteration |
| Agent.RootEntries | main.py:119-123 | each root child contributes its move label and its win rate, in child order, and every rate lies in [0, 1] |
| Agent.RootLabels | main.py:119-123 | the labels that reach the aggregation are exactly the valid first moves |
| Aggregation.RatesOf | main.py:119-123 | a label collects at least one rate exactly when it occurs among the entries |
| Aggregation.FirstIndexIsFirst | main.py:119-123 | the position that orders a label in the grouping is its first occurrence: no root child before it carries that label |
| Aggregation.Insert | main.py:120-123 | one pass of the grouping loop appends the rate to the group of its label if that label has a group, or opens a new last group for it; the other groups are unchanged |
| Aggregation.GroupBy | main.py:117-123 | the grouping has one group per distinct label, holding that label's rates in entry order, and the groups are ordered by each label's first appearance |
| Aggregation.BestOfGroups | main.py:125-133 | the scan over the groups returns nothing only when every mean is at most -1; otherwise it returns a label whose mean is at least every other mean and strictly above every mean of a label seen earlier |
| Aggregation.BestMove | main.py:117-135 | the move chosen from the root's entries has the highest mean win rate, and no label that appeared earlier has an equal mean; nothing is chosen only when every mean is at most -1 |
| Aggregation.MeanBounds | main.py:129 | the mean of win rates is itself in [0, 1] |
| Aggregation.GroupMeanBounds | main.py:129 | when every entry's rate is a win rate, every label's mean lies in [0, 1] |
| Aggregation.BestMoveOfRates | main.py:125-135 | with win rates as entries, some label is chosen as soon as there is one entry, and a single entry's label is chosen outright |
| Agent.ChosenMove | main.py:117-135 | on the tree the search grows, a move is chosen exactly when there was a valid first move, it is one of those moves, and it is the only move when there is just one |
| Agent.SelectMove | main.py:65-135 | a state that cannot play fails with the game-over error before any tree is built; otherwise a move is returned exactly when one is valid, it is a valid move, a lone valid move is returned outright, and it is the first label with the best mean win rate among the root's children |

## Left out

- The `ray` start-up, remote dispatch and `ray.get` (`main.py:1-3`, `71-85`) are distributed plumbing. The root phase is a sequential pass over an input list holding one outcome per root child.
- `simulate_game` (`main.py:29-46`) is a random rollout over the game engine, which is not part of this model. Each rollout is an input boolean outcome.
- The `tree` module (`from tree import Node`, `main.py:14`, with `add_all_childs`, `add_random_child`, `can_add_child`, `is_leaf`, `record`, `get_stat`) is not part of this model. These operations are modelled from how `main.py` calls them.
- `random.choice` inside `add_random_child` is replaced by an input index into the untried moves.
- The game state each node holds, and the root's random spawn inside `add_all_childs`, are left out. Only move labels and untried-move lists reach the model.
- The floating-point `sqrt` and `log` in `uct_score` are abstracted to the three facts above. Float rounding in win rates, scores and means is not modelled; they are exact reals.
- Logging, `print`, the `cnt` counter of selection steps (`main.py:94`, `103-104`, `115`), `collect_data`, `Collector` and the `__main__` block are I/O and plumbing with no effect on the chosen move.
- Agent.SelectMove: the loop bound is the number of draws supplied, not a wall-clock duration (`main.py:96-98`), because the clock is an input to the program, not part of its logic.
- Agent.SelectMove: it requires exactly one rollout outcome per root child, as `ray.get` returns one result per dispatched task. `Agent.RecordPairs` alone still models the truncation of `zip`.
- Arena.RootTree: it assumes that `add_all_childs` leaves the root with no untried moves, because the tree module is not part of this model. Without that assumption, a later iteration could add a second child with the same move to the root.
- Selection.SelectChild: it requires every child to have been visited at least once. The source would raise a division error in `get_stat` otherwise. `Agent.Iterate` shows that this holds on every tree the search builds.
- Uct.UctScore: `log` and `sqrt` are any functions obeying the three facts above, not the concrete ones, so only properties that follow from those facts are stated. A zero count, where the source raises, is excluded by the precondition rather than modelled as an error; `Selection.SelectChild` only scores visited children.
