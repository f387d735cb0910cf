/**
 * MCTSAgent: one card decision under a fixed iteration budget.
 */
module MctsAgent {
  import opened Wrappers
  import opened Simulation
  import opened Arena
  import opened Mcts

  class Agent {
    const iterations: nat
    const param: real

    constructor (iterations: nat, param: real)
      ensures this.iterations == iterations && this.param == param
    {
      this.iterations := iterations;
      this.param := param;
    }

    /**
     * choose_card: with exactly one legal action, that action, and no tree;
     * otherwise `iterations` steps of a fresh tree, each on its own snapshot
     * of the state, then get_best on the actual state, falling back to a
     * random option when get_best yields None. The fallback fails (None)
     * only when there are no options either.
     */
    method ChooseCard<S(!new), A(!new, ==), K(!new, ==), E(==)>(
      game: Game<S, A, K>, state: S, snapshot: nat -> S, toAction: (S, A) -> E, options: seq<E>)
      returns (choice: Option<E>, ghost tree: Tree?<S, A, K>, ghost best: Option<A>)
      requires Finite(game)
      ensures |game.actions(state)| == 1 ==>
        tree == null && choice == Some(toAction(state, game.actions(state)[0]))
      ensures |game.actions(state)| != 1 ==>
        && tree != null && fresh(tree) && tree.Valid() && tree.game == game
        && tree.nodes[0].param == param
        && |tree.nodes| <= iterations + 1
        && (iterations > 0 && game.actions(snapshot(0)) != [] ==> |tree.nodes| >= 2)
        && tree.nodes[0].visits + 1 == |tree.nodes|
        && VisitsCountRollouts(tree.nodes)
        && IsBestChoice(game, tree.nodes, 0, state, best)
        && (best.Some? ==> choice == Some(toAction(state, best.value)))
        && (best.None? ==> (choice.None? <==> options == []) && (choice.Some? ==> choice.value in options))
    {
      var actions := game.actions(state);
      if |actions| == 1 {
        return Some(toAction(state, actions[0])), null, None;
      }
      var t := new Tree(game, param);
      for i := 0 to iterations
        invariant t.Valid() && t.game == game && t.nodes[0].param == param
        invariant |t.nodes| <= i + 1 && t.nodes[0].visits + 1 == |t.nodes|
        invariant i == 0 ==> t.nodes[0].children == map[]
        invariant i > 0 && game.actions(snapshot(0)) != [] ==> |t.nodes| >= 2
        invariant VisitsCountRollouts(t.nodes)
      {
        var sample := snapshot(i);
        ghost var before := t.nodes;
        var final, _ := t.Step(0, sample);
        assert WellFormed(game, t.nodes) && |before| <= |t.nodes| <= |before| + 1 &&
               t.nodes[0].param == before[0].param &&
               t.nodes[0].visits == before[0].visits + (|t.nodes| - |before|) &&
               VisitsCountRollouts(t.nodes) by {
          StepGrowsByAtMostOne(game, before, t.nodes, 0, game.score(final));
        }
        if i == 0 && game.actions(sample) != [] {
          // the root has no child yet, so the first step expands it
          assert game.actions(sample)[0] in Unexplored(game, game.actions(sample), before[0].children);
        }
      }
      var bestAction := t.GetBest(0, state);
      tree, best := t, bestAction;
      if bestAction.None? {
        // get_best found nothing: fall back to a random option
        if options == [] {
          return None, t, bestAction;
        }
        assert options[0] in options;
        var e :| e in options;
        return Some(e), t, bestAction;
      }
      choice := Some(toAction(state, bestAction.value));
    }
  }
}
