/**
 * The game the search plays, seen only through the narrow interface the
 * search tree uses: the battle state's get_actions, step, apply_action,
 * ended and score, and an action's key().
 */
module Simulation {

  /**
   * The behaviour of a game state. A state is a value of type S, an action
   * has type A and its canonical key type K. The model takes the outcome of
   * advancing a state by an action to be fixed by the two: any randomness
   * of the game's own step is treated as part of the state value.
   */
  datatype Game<!S, !A, !K> = Game(
    actions: S -> seq<A>,    // state.get_actions()
    next: (S, A) -> S,       // state.step(action)
    applyKey: (S, K) -> S,   // state.apply_action(key), as select calls it
    ended: S -> bool,        // state.ended()
    score: S -> real,        // state.score()
    key: A -> K,             // action.key()
    remaining: S -> nat)     // a bound on the moves left before the game stops

  /** Every legal move from a state that has not ended brings the end closer. */
  ghost predicate Finite<S(!new), A(!new), K>(g: Game<S, A, K>)
  {
    forall s, a :: !g.ended(s) && a in g.actions(s) ==> g.remaining(g.next(s, a)) < g.remaining(s)
  }

  /** A random playout stops here: the game has ended or offers no action. */
  predicate Stopped<S, A, K>(g: Game<S, A, K>, s: S)
  {
    g.ended(s) || g.actions(s) == []
  }

  /** The state reached from s by playing moves in order. */
  function Apply<S, A, K>(g: Game<S, A, K>, s: S, moves: seq<A>): S
    decreases |moves|
  {
    if moves == [] then s else Apply(g, g.next(s, moves[0]), moves[1..])
  }

  /** Every move is one of the actions the state offers when it is played. */
  ghost predicate Legal<S, A, K>(g: Game<S, A, K>, s: S, moves: seq<A>)
    decreases |moves|
  {
    moves == [] || (moves[0] in g.actions(s) && Legal(g, g.next(s, moves[0]), moves[1..]))
  }

  /** The moves are legal and none of them is played from a state that has ended. */
  ghost predicate Active<S, A, K>(g: Game<S, A, K>, s: S, moves: seq<A>)
    decreases |moves|
  {
    moves == [] ||
    (!g.ended(s) && moves[0] in g.actions(s) && Active(g, g.next(s, moves[0]), moves[1..]))
  }

  /** What the rollout loop plays: active moves up to the first state where it must stop. */
  ghost predicate RandomPlayout<S, A, K>(g: Game<S, A, K>, s: S, moves: seq<A>)
  {
    Active(g, s, moves) && Stopped(g, Apply(g, s, moves))
  }

  lemma {:induction false} ActiveExtend<S, A, K>(g: Game<S, A, K>, s: S, moves: seq<A>, a: A)
    requires Active(g, s, moves)
    requires !g.ended(Apply(g, s, moves)) && a in g.actions(Apply(g, s, moves))
    ensures Active(g, s, moves + [a])
    ensures Apply(g, s, moves + [a]) == g.next(Apply(g, s, moves), a)
  {
    if moves == [] {
      assert moves + [a] == [a];
      assert Active(g, g.next(s, a), []);
    } else {
      ActiveExtend(g, g.next(s, moves[0]), moves[1..], a);
      assert (moves + [a])[1..] == moves[1..] + [a];
    }
  }

  lemma {:induction false} ActiveIsLegal<S, A, K>(g: Game<S, A, K>, s: S, moves: seq<A>)
    requires Active(g, s, moves)
    ensures Legal(g, s, moves)
    decreases |moves|
  {
    if moves != [] {
      ActiveIsLegal(g, g.next(s, moves[0]), moves[1..]);
    }
  }

  /**
   * The random playout loop of rollout: while the game has not ended and
   * offers an action, play one chosen at random.
   */
  method Playout<S(!new), A(!new, ==), K>(g: Game<S, A, K>, start: S) returns (s: S, ghost moves: seq<A>)
    requires Finite(g)
    ensures Stopped(g, s)
    ensures RandomPlayout(g, start, moves) && s == Apply(g, start, moves)
    ensures Stopped(g, start) ==> moves == [] && s == start
  {
    s, moves := start, [];
    while !g.ended(s)
      invariant Active(g, start, moves) && s == Apply(g, start, moves)
      decreases g.remaining(s)
    {
      var actions := g.actions(s);
      if actions == [] {
        break;
      }
      assert actions[0] in actions;
      var a :| a in actions;
      ActiveExtend(g, start, moves, a);
      s, moves := g.next(s, a), moves + [a];
    }
  }
}
