/**
 * The search tree: the TreeNode methods step, expand, rollout,
 * backpropagate, get_best and select, working in place on an arena of nodes.
 * A method's node index n plays the part of the Python `self`; the game
 * state it is handed is returned advanced instead of being changed in place.
 */
module Mcts {
  import opened Wrappers
  import opened Simulation
  import opened Arena

  class Tree<S(!new), A(!new, ==), K(!new, ==)> {
    const game: Game<S, A, K>
    var nodes: seq<Node<A, K>>

    ghost predicate Valid()
      reads this
    {
      Finite(game) && WellFormed(game, nodes)
    }

    /** A fresh tree: TreeNode(param) as the root, with no children and no statistics. */
    constructor (game: Game<S, A, K>, param: real)
      requires Finite(game)
      ensures Valid() && this.game == game
      ensures nodes == [NewNode(param, None, None)]
      ensures VisitsCountRollouts(nodes)
    {
      this.game := game;
      nodes := [NewNode(param, None, None)];
      new;
      assert NodeOk(game, nodes, 0);
      assert Rollouts(nodes, 0) == {};
    }

    /**
     * backpropagate(r) at node n: one more visit and r appended, at n and at
     * every ancestor up to the root.
     */
    method Backpropagate(n: nat, r: real)
      requires Valid() && n < |nodes|
      modifies this
      ensures Valid()
      ensures nodes == Backpropagated(old(nodes), n, r)
      decreases n
    {
      ghost var before := nodes;
      assert NodeOk(game, before, n);
      var node := nodes[n];
      node := node.(visits := node.visits + 1);
      node := node.(results := node.results + [r]);
      nodes := nodes[n := node];
      forall i | 0 <= i < |nodes| ensures nodes[i].visits == |nodes[i].results| {
        assert NodeOk(game, before, i);
      }
      ShapeKeepsWellFormed(game, before, nodes);
      match node.parent
      case None =>
      case Some(p) => Backpropagate(p, r);
    }

    /**
     * rollout(state) at node n: play at random until the game stops, then
     * backpropagate the final state's score from n.
     */
    method Rollout(n: nat, state: S) returns (final: S, ghost moves: seq<A>)
      requires Valid() && n < |nodes|
      modifies this
      ensures Valid()
      ensures RandomPlayout(game, state, moves) && final == Apply(game, state, moves)
      ensures Stopped(game, state) ==> final == state
      ensures nodes == Backpropagated(old(nodes), n, game.score(final))
    {
      final, moves := Playout(game, state);
      Backpropagate(n, game.score(final));
    }

    /**
     * expand(state, candidates) at node n: pick a candidate a at random,
     * advance the state by it, store a new child under a's key (replacing
     * any child already there) and roll out from the new child.
     */
    method Expand(n: nat, state: S, candidates: seq<A>) returns (final: S, ghost moves: seq<A>, ghost a: A, ghost r: real)
      requires Valid() && n < |nodes| && candidates != []
      modifies this
      ensures Valid()
      ensures a in candidates && moves != [] && moves[0] == a
      ensures RandomPlayout(game, game.next(state, a), moves[1..]) && final == Apply(game, state, moves)
      ensures r == game.score(final)
      ensures Expansion(game, old(nodes), nodes, n, a, r)
    {
      assert candidates[0] in candidates;
      var action :| action in candidates;
      var next := game.next(state, action);
      ghost var before := nodes;
      var child := NewNode(nodes[n].param, Some(n), Some(action));
      var c := |nodes|;
      var k := game.key(action);
      var parent := nodes[n];
      parent := parent.(children := parent.children[k := c],
                        order := if k in parent.children then parent.order else parent.order + [k]);
      nodes := nodes[n := parent] + [child];
      assert nodes == Attach(game, before, n, action);
      AttachEffects(game, before, n, action);
      ghost var rest;
      final, rest := Rollout(c, next);
      moves, a, r := [action] + rest, action, game.score(final);
      assert moves[1..] == rest;
    }

    /**
     * step(state) at node n, one search iteration: nothing when the state
     * offers no action; otherwise expand among the actions whose key has no
     * child yet, or, when there are none, advance by a random action and
     * step into its child.
     */
    method Step(n: nat, state: S) returns (final: S, ghost moves: seq<A>)
      requires Valid() && n < |nodes|
      modifies this
      ensures Valid()
      ensures Legal(game, state, moves) && final == Apply(game, state, moves)
      ensures game.actions(state) == [] ==> nodes == old(nodes) && moves == []
      ensures game.actions(state) != [] ==> moves != [] && moves[0] in game.actions(state)
      ensures Unexplored(game, game.actions(state), old(nodes)[n].children) != [] ==>
        && moves != []
        && moves[0] in Unexplored(game, game.actions(state), old(nodes)[n].children)
        && Expansion(game, old(nodes), nodes, n, moves[0], game.score(final))
      ensures game.actions(state) != [] && Unexplored(game, game.actions(state), old(nodes)[n].children) == [] ==>
        && moves != [] && game.key(moves[0]) in old(nodes)[n].children
        && (nodes == old(nodes) ||
            GrewBelow(game, old(nodes), nodes, old(nodes)[n].children[game.key(moves[0])], game.score(final)))
      ensures nodes == old(nodes) || GrewBelow(game, old(nodes), nodes, n, game.score(final))
      ensures Stopped(game, final)
      ensures nodes == old(nodes) ==> game.actions(final) == []
      ensures Unexplored(game, game.actions(state), old(nodes)[n].children) != [] ==>
        moves != [] && RandomPlayout(game, game.next(state, moves[0]), moves[1..])
      decreases |nodes| - n
    {
      var actions := game.actions(state);
      if actions == [] {
        return state, [];
      }
      var unexplored := Unexplored(game, actions, nodes[n].children);
      if unexplored != [] {
        ghost var a, r;
        final, moves, a, r := Expand(n, state, unexplored);
        ActiveIsLegal(game, game.next(state, a), moves[1..]);
        assert game.key(a) !in old(nodes)[n].children;
        assert n in Ancestry(old(nodes), n);
      } else {
        assert actions[0] in actions;
        var action :| action in actions;
        var next := game.next(state, action);
        var k := game.key(action);
        // every legal action is explored, so its child exists
        assert k in nodes[n].children;
        var c := nodes[n].children[k];
        assert NodeOk(game, nodes, n) && ChildOk(game, nodes, n, k);
        ghost var before := nodes;
        ghost var rest;
        final, rest := Step(c, next);
        moves := [action] + rest;
        assert moves[1..] == rest;
        if nodes != before {
          ghost var p: nat, a: A :| p < |before| && Expansion(game, before, nodes, p, a, game.score(final)) &&
            c in Ancestry(before, p) && game.key(a) !in before[p].children;
          AncestryClosed(before, p, c, n);
        }
      }
    }

    /**
     * get_best(state) at node n: with no children, a random action of the
     * state (None if it has none); otherwise the action of the visited
     * child whose average outcome is greatest, the first such one in
     * iteration order, or None if no child has been visited.
     */
    method GetBest(n: nat, state: S) returns (best: Option<A>)
      requires Valid() && n < |nodes|
      ensures IsBestChoice(game, nodes, n, state, best)
    {
      var node := nodes[n];
      if node.children == map[] {
        var actions := game.actions(state);
        if actions == [] {
          return None;
        }
        assert actions[0] in actions;
        var a :| a in actions;
        return Some(a);
      }
      assert NodeOk(game, nodes, n);
      var bestIndex: Option<nat> := None;
      var bestAvg: real := 0.0;  // stands for -inf while bestIndex is None
      for j := 0 to |node.order|
        invariant bestIndex.None? <==> forall x :: 0 <= x < j ==> nodes[ChildAt(game, nodes, n, x)].visits == 0
        invariant bestIndex.Some? ==>
          BestAmong(game, nodes, n, bestIndex.value, j) &&
          bestAvg == Mean(nodes[ChildAt(game, nodes, n, bestIndex.value)].results)
      {
        var child := nodes[node.children[node.order[j]]];
        assert child == nodes[ChildAt(game, nodes, n, j)];
        if child.visits > 0 {
          assert NodeOk(game, nodes, ChildAt(game, nodes, n, j));
          var avg := Sum(child.results) / (child.visits as real);
          if bestIndex.None? || avg > bestAvg {
            bestIndex, bestAvg := Some(j), avg;
          }
        }
      }
      if bestIndex.None? {
        return None;
      }
      var chosen := nodes[node.children[node.order[bestIndex.value]]];
      best := Some(chosen.action.value);
    }

    /**
     * select(state) at node n, the UCB-1 descent: when n has fewer children
     * than the state has actions, expand with all of them (possibly under a
     * key that already has a child, which is then replaced); otherwise apply
     * the key of the child with the greatest UCB-1 value (the first one on a
     * tie) and select from that child. max() over no children raises
     * ValueError, reported here as failed.
     */
    method Select(n: nat, state: S, explore: (nat, nat) -> real) returns (final: S, failed: bool)
      requires Valid() && n < |nodes|
      modifies this
      ensures Valid()
      ensures failed ==> nodes == old(nodes)
      ensures !failed ==> exists p: nat, a: A ::
        p < |old(nodes)| && Expansion(game, old(nodes), nodes, p, a, game.score(final)) && n in Ancestry(old(nodes), p)
      ensures |old(nodes)[n].children| < |game.actions(state)| ==>
        !failed && exists a :: a in game.actions(state) && Expansion(game, old(nodes), nodes, n, a, game.score(final))
      ensures |old(nodes)[n].children| >= |game.actions(state)| && old(nodes)[n].order != [] && !failed ==>
        exists p: nat, a: A :: p < |old(nodes)| && Expansion(game, old(nodes), nodes, p, a, game.score(final)) &&
          ChildAt(game, old(nodes), n, FirstMax(UcbScores(game, old(nodes), n, explore))) in Ancestry(old(nodes), p)
      ensures old(nodes)[n].children == map[] && game.actions(state) == [] ==> failed
      ensures failed ==> game.actions(final) == []
      ensures !failed ==> Stopped(game, final)
      decreases |nodes| - n
    {
      var available := game.actions(state);
      if |nodes[n].children| < |available| {
        ghost var moves, a, r;
        final, moves, a, r := Expand(n, state, available);
        failed := false;
        assert n in Ancestry(old(nodes), n);
      } else if nodes[n].order == [] {
        assert NodeOk(game, nodes, n);
        final, failed := state, true;
      } else {
        var j := FirstMax(UcbScores(game, nodes, n, explore));
        var k := nodes[n].order[j];
        var c := ChildAt(game, nodes, n, j);
        var next := game.applyKey(state, k);
        ghost var before := nodes;
        final, failed := Select(c, next, explore);
        if !failed {
          ghost var p: nat, a: A :| p < |before| && Expansion(game, before, nodes, p, a, game.score(final)) &&
            c in Ancestry(before, p);
          assert NodeOk(game, before, n) && ChildOk(game, before, n, k);
          AncestryClosed(before, p, c, n);
        }
      }
    }
  }
}
