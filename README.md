# Monte Carlo tree search for the card-battle bot, in Dafny

This project models the search engine of the card-battle bot's MCTS agent
(`ggpa/mcts_bot.py`). The engine has two parts:

- `TreeNode` is a node of the search tree. It holds the exploration
  parameter, its parent, the action that leads to it, its children keyed by
  action key, the outcomes backpropagated through it, and a visit count.
  Its operations are `step` (one search iteration), `expand`, `rollout`,
  `backpropagate`, `get_best` (the final pick) and the UCB-1 descent
  `select`.
- `MCTSAgent.choose_card` makes one card decision. With one legal action it
  plays that action. Otherwise it runs a fixed number of `step` iterations
  on a fresh tree, each on its own snapshot of the battle state. Then it
  asks `get_best` for the action to play, and falls back to a random
  option when there is none.

How the model is laid out:

- The tree is an arena. Class `Mcts.Tree` holds a sequence of `Arena.Node`
  values, and the root is at index 0. Parent and child links are indices,
  and a parent always has a smaller index than its children. A `Tree`
  method's node index plays the part of Python's `self`.
- The dictionary of children is a `map` from key to index, plus `order`,
  which holds the keys in insertion order. That is the order Python's dict
  iterates in, and the order ties are broken in.
- The battle state is a value. Its interface is the datatype
  `Simulation.Game`: `get_actions`, `step`, `apply_action`, `ended`,
  `score`, `key()` of an action, and a `remaining` measure. `Finite` states
  that `remaining` drops with every legal move from a state that has not
  ended.
- Each method returns the state it advanced rather than changing it in
  place. `Rollout`, `Expand` and `Step` also return the ghost sequence of
  moves they played.
- `random.choice` is an unconstrained choice from the list (`:|`).

Module `Arena` gives value-level definitions of what the operations do.

- `Attach` is what `expand` inserts.
- `Backpropagated` is what `backpropagate` records.
- `Expansion` is one expansion followed by its rollout.
- `WellFormed` is the tree invariant:
  - the parent/child links agree;
  - only the root has no action;
  - `visits == len(results)` at every node;
  - every node carries the root's `param`;
  - the keys in `order` are distinct and are exactly the keys of `children`.
- `VisitsCountRollouts` is the counting invariant: every node's visit count
  equals the number of rollouts that passed through it.

The methods of `Mcts.Tree` are proved against these definitions, and the
lemmas of `Arena` state what the definitions imply.

Some behaviour of the code worth knowing, which the model keeps:

- `select` passes the chosen child's key, not an action, to `apply_action`,
  because `max` over `children.items()` yields the key. The model applies
  the key through `Game.applyKey`.
- `select` measures the parent's visits as `len(self.results)`. The tree
  invariant makes this equal to the visit count.
- `choose_card`'s fallback is `random.choice` on the option list, which
  raises on an empty list. The model reports this case as `None`.
- When `select` meets a node with no children in a state that offers no
  action, `max()` over the empty `children.items()` raises `ValueError`.
  The model reports this as `failed`.

## Model

| member | source | states |
|---|---|---|
| Mcts.Tree.constructor | ggpa/mcts_bot.py:20-26 | a new tree is one root node with the given param, no parent, no action, no children, no results and no visits; it is well formed and visit counts match rollouts |
| Mcts.Tree.Backpropagate | ggpa/mcts_bot.py:114-118 | the tree becomes `Backpropagated(old tree, n, r)`, and the tree invariant is kept |
| Arena.Backpropagated | ggpa/mcts_bot.py:114-118 | backpropagation adds and removes no node |
| Arena.Ancestry | ggpa/mcts_bot.py:117-118 | the path that backpropagate follows from node n contains n and the root, and only nodes with index at most n |
| Arena.BackpropagatedAt | ggpa/mcts_bot.py:114-118 | after backpropagate(r) at n, every node on the path from n to the root has one more visit and r appended to its results; every other node is unchanged |
| Arena.BackpropagatedKeepsWellFormed | ggpa/mcts_bot.py:114-118 | backpropagation changes only statistics (params, links, actions, children and order are all kept) and keeps the tree well formed |
| Simulation.Playout | ggpa/mcts_bot.py:103-108 | the playout stops only in a state that has ended or offers no action; each move is legal and is played from a state that has not ended; an already stopped state is returned unchanged with no move |
| Mcts.Tree.Rollout | ggpa/mcts_bot.py:102-109 | the state is played out as `Playout` states, and the final state's score is backpropagated from n |
| Arena.Attach | ggpa/mcts_bot.py:96-97 | inserting the new child keeps parent links pointing to earlier nodes and adds exactly one node |
| Arena.AttachKeepsWellFormed | ggpa/mcts_bot.py:96-97 | the tree stays well formed after the insertion, including when the key already had a child |
| Arena.AttachEffects | ggpa/mcts_bot.py:96-97 | the new node is `TreeNode(parent.param, parent, action)`; it is stored under key(action); the parent's other entries and statistics are unchanged; the child count grows by one exactly when the key was new; no other node changes |
| Mcts.Tree.Expand | ggpa/mcts_bot.py:93-98 | a candidate `a` is played first; the tree becomes the insertion of a's child followed by backpropagation of the rollout's score from that child; the rest of the play is a random playout |
| Arena.Unexplored | ggpa/mcts_bot.py:35 | an action is in the result exactly when it is among the actions and its key has no child |
| Mcts.Tree.Step | ggpa/mcts_bot.py:30-43 | The moves played are legal. With no action, nothing changes. Otherwise the first move is a legal action of the state. If some action is unexplored, the first move is an unexplored action and the tree grows by exactly its expansion at n, recording the final state's score. If all actions are explored, the first move's key has a child, and the tree is unchanged or grew by one expansion at or below that child, under a key that was new, recording the final state's score. In every case the tree is unchanged or grew by one such expansion at or below n. The final state is one where the game has ended or offers no action; when the tree grew, its score is the recorded one. After an expansion at n, the moves past the first are a full random playout. The tree stays unchanged only when the descent ends in a state that offers no action. |
| Arena.GrowthEffects | ggpa/mcts_bot.py:93-118 | one expansion adds one node with one visit and the one result; it records the result at every ancestor of the expanded node; the root gains exactly one visit; every other node keeps its statistics |
| Arena.GrowthKeepsChildren | ggpa/mcts_bot.py:35-37 | expanding under a key with no child loses no existing child entry |
| Arena.GrowthKeepsVisitCounts | ggpa/mcts_bot.py:93-118 | each expansion keeps every node's visit count equal to the number of rollouts that passed through it |
| Arena.StepGrowsByAtMostOne | ggpa/mcts_bot.py:30-43 | a step adds at most one node; the root's and n's visits grow by one exactly when a node was added, and the root records the result then; the root's param is kept; no child entry is lost; the invariant that visits count rollouts is kept |
| Arena.GrowthUnderChildKeepsParent | ggpa/mcts_bot.py:39-43 | when step descends into a child, the expansion happens at or below that child, so the node it descended from keeps its children and their order |
| Arena.BestIsUnique | ggpa/mcts_bot.py:54-59 | the strict `>` comparison gives ties to the first child in iteration order, so at most one child is best |
| Mcts.Tree.GetBest | ggpa/mcts_bot.py:48-60 | with no children, a legal action of the state, or None when there is none; otherwise the action of the first visited child with the greatest average outcome, or None exactly when no child has been visited |
| Arena.FirstMax | ggpa/mcts_bot.py:83-85 | `max` returns the first position that holds the largest value |
| Mcts.Tree.Select | ggpa/mcts_bot.py:78-88 | With fewer children than actions, it does one expansion at n with a legal action. Otherwise it descends into the child at `FirstMax(UcbScores(...))`, the first child of greatest UCB-1 value (mean outcome, 0 with none, plus the exploration term of the parent's and the child's outcome counts), and the expansion happens at or below that child. Every successful call is one expansion at or below n that records the final state's score. A failure (empty `max`) leaves the tree unchanged. A childless node in a state with no action fails, and a failure is reported only in a state that offers no action. A successful call ends in a state where the game has ended or offers no action. |
| Arena.ZeroExplorationIsGreedy | ggpa/mcts_bot.py:83-85 | with a zero exploration term, select descends into the first child with the greatest mean outcome |
| Arena.AttachOverExplored | ggpa/mcts_bot.py:80-81 | when select expands under a key that already has a child, the old child is dropped from the dictionary and the number of children does not grow |
| Scenarios.FirstIteration | ggpa/mcts_bot.py:30-37 | in a game offering the actions 1 and 2, the first iteration gives the root one child, visited once, and the root one visit |
| Scenarios.SecondIteration | ggpa/mcts_bot.py:30-37 | the second iteration expands the other action: two children, each visited once, and two visits at the root |
| Scenarios.ThirdIteration | ggpa/mcts_bot.py:36-43 | once both actions are explored, a further iteration keeps the root's two children |
| MctsAgent.Agent.constructor | ggpa/mcts_bot.py:129-132 | the agent keeps the iteration budget and the exploration parameter |
| MctsAgent.Agent.ChooseCard | ggpa/mcts_bot.py:135-154 | with exactly one action, that action translated and no tree. Otherwise a fresh well-formed tree with root param `param`, at most `iterations + 1` nodes, at least two nodes when the first snapshot offers an action, root visits equal to the number of non-root nodes, and visits counting rollouts. The answer is get_best's choice translated, or, when get_best has none, an element of the options, which is None exactly when there are no options. |

## Left out

- `print_tree`: it only prints the tree to the console and has no effect on the decision, so it is not modelled. The `verbose` flag that triggers it is left out too.
- The warning `choose_card` prints before its fallback is console output and is not modelled.
- `time.time()` in `choose_card`: its value is never used.
- `TreeNode.score` (lines 123-124) only forwards to `state.score()`, and nothing calls it. The model reads `Game.score` directly.
- `choose_agent_target` and `choose_card_target` (lines 157-162) return the first candidate and take no part in the search.
- The UCB-1 exploration term `param * sqrt(log(parent + 1) / (1 + child))` uses floating-point `sqrt` and `log`. It is the parameter `explore` of `Select`, a function of the parent's and the child's outcome counts. Floating-point rounding, infinities and NaN are not modelled; outcomes and averages are exact reals.
- `get_best`'s `-inf` start value is the absence of a best child so far.
- The game's own randomness in `state.step` (lines 40, 95 and 108) is not modelled: `Game.next` is a function, so the outcome of a move is taken to be fixed by the state value and the action. The contracts of `Simulation.Playout`, `Mcts.Tree.Rollout`, `Mcts.Tree.Expand` and `Mcts.Tree.Step`, which give the final state as `Apply` of the moves, hold under that reading.
- `random.choice` is an unconstrained choice of a list element. Its uniform distribution is not modelled.
- Changing the state in place is modelled as returning the advanced state. The aliasing between the caller's state and the state a method advances is not captured.
- `copy_undeterministic` is the parameter `snapshot` of `ChooseCard`, one snapshot per iteration. `to_action` is the parameter `toAction`, and `get_choose_card_options` is the parameter `options`. These live in the game engine, which is not part of this model.
- The model assumes every game terminates (`Simulation.Finite`). For a game that never ends, the source's rollout loop would not terminate.
- Python objects are nodes in an arena. A child that `select` replaces stays in the arena, reachable only through its parent link, where Python would garbage-collect it.
- Mcts.Tree.Select: the contract does not describe the final state or the sequence of key applications and actions that produced it, because select mixes `apply_action` on keys with `expand`'s moves.
- Mcts.Tree.Step: in the descent case the contract places the expansion at or below the child of the first move. It does not say that the expansion follows the later moves of the same descent.
- MctsAgent.Agent.ChooseCard: the contract bounds the tree by `iterations + 1` nodes, and guarantees at least two only after a first iteration with an action. It does not say which later iterations expanded, since an iteration whose descent reaches a stopped state adds nothing.
