/**
 * A client of the search tree: the two-action scenario, checked from the
 * contracts of Tree alone.
 */
module Scenarios {
  import opened Wrappers
  import opened Simulation
  import opened Arena
  import opened Mcts

  /** One decision: at state 0 the actions 1 and 2 are offered; either one ends the game, scoring its own number. */
  function TwoActions(): (g: Game<int, int, int>)
    ensures Finite(g)
  {
    Game(s => if s == 0 then [1, 2] else [],
         (s, a) => a,
         (s, k) => k,
         s => s != 0,
         s => s as real,
         a => a,
         s => if s == 0 then 1 else 0)
  }

  lemma FirstIteration(nodes0: seq<Node<int, int>>, nodes1: seq<Node<int, int>>, a1: int, r1: real)
    requires nodes0 == [NewNode(0.5, None, None)] && WellFormed(TwoActions(), nodes0)
    requires a1 in [1, 2] && Expansion(TwoActions(), nodes0, nodes1, 0, a1, r1)
    ensures WellFormed(TwoActions(), nodes1) && |nodes1| == 2
    ensures nodes1[0].children == map[a1 := 1]
    ensures nodes1[0].visits == 1 && nodes1[1].visits == 1
  {
    GrowthEffects(TwoActions(), nodes0, 0, a1, r1);
    AttachEffects(TwoActions(), nodes0, 0, a1);
  }

  lemma SecondIteration(nodes1: seq<Node<int, int>>, nodes2: seq<Node<int, int>>, a1: int, a2: int, r2: real)
    requires WellFormed(TwoActions(), nodes1) && |nodes1| == 2
    requires nodes1[0].children == map[a1 := 1] && nodes1[0].visits == 1 && nodes1[1].visits == 1
    requires a2 in Unexplored(TwoActions(), [1, 2], nodes1[0].children)
    requires Expansion(TwoActions(), nodes1, nodes2, 0, a2, r2)
    ensures |nodes2| == 3 && a2 != a1
    ensures nodes2[0].children == map[a1 := 1, a2 := 2]
    ensures nodes2[0].visits == 2 && nodes2[1].visits == 1 && nodes2[2].visits == 1
  {
    GrowthEffects(TwoActions(), nodes1, 0, a2, r2);
    AttachEffects(TwoActions(), nodes1, 0, a2);
    assert Ancestry(nodes1, 0) == {0};
  }

  /**
   * A third iteration finds both actions explored, so it descends: the
   * root keeps its two children whatever happens below.
   */
  lemma ThirdIteration(nodes2: seq<Node<int, int>>, nodes3: seq<Node<int, int>>, m: int, r3: real)
    requires WellFormed(TwoActions(), nodes2) && |nodes2| == 3
    requires nodes2[0].children == map[1 := 1, 2 := 2] || nodes2[0].children == map[2 := 1, 1 := 2]
    requires m in [1, 2] && m in nodes2[0].children
    requires nodes3 == nodes2 || GrewBelow(TwoActions(), nodes2, nodes3, nodes2[0].children[m], r3)
    ensures |nodes3| >= 3 && nodes3[0].children == nodes2[0].children && |nodes3[0].children| == 2
  {
    if nodes3 != nodes2 {
      GrowthUnderChildKeepsParent(TwoActions(), nodes2, nodes3, 0, nodes2[0].children[m], r3);
      StepGrowsByAtMostOne(TwoActions(), nodes2, nodes3, nodes2[0].children[m], r3);
    }
  }

  /**
   * Three iterations from a root with actions {1, 2}: two children, one per
   * action, each visited once after the second; the third keeps them.
   */
  method ThreeIterations()
  {
    var g := TwoActions();
    var t := new Tree(g, 0.5);
    ghost var nodes0 := t.nodes;
    assert Unexplored(g, [1, 2], nodes0[0].children) == [1, 2];
    var final1, moves1 := t.Step(0, 0);
    ghost var nodes1 := t.nodes;
    FirstIteration(nodes0, nodes1, moves1[0], g.score(final1));

    assert 3 - moves1[0] in Unexplored(g, [1, 2], nodes1[0].children);
    var final2, moves2 := t.Step(0, 0);
    ghost var nodes2 := t.nodes;
    SecondIteration(nodes1, nodes2, moves1[0], moves2[0], g.score(final2));
    assert |t.nodes[0].children| == 2 && t.nodes[0].visits == 2;
    ThirdStep(t);
    assert |t.nodes[0].children| == 2;
  }

  /** The third iteration, on a tree whose root has both actions explored. */
  method ThirdStep(t: Tree<int, int, int>)
    requires t.Valid() && t.game == TwoActions() && |t.nodes| == 3
    requires t.nodes[0].children == map[1 := 1, 2 := 2] || t.nodes[0].children == map[2 := 1, 1 := 2]
    modifies t
    ensures t.Valid() && t.nodes[0].children == old(t.nodes[0].children)
  {
    ghost var nodes2 := t.nodes;
    assert Unexplored(t.game, [1, 2], nodes2[0].children) == [];
    var final, moves := t.Step(0, 0);
    ThirdIteration(nodes2, t.nodes, moves[0], t.game.score(final));
  }
}
