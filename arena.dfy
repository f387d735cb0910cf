/**
 * The search tree as an arena of nodes addressed by index: index 0 is the
 * root, a node's parent is a smaller index and its children larger ones.
 * This module holds the value-level description of the tree (what a
 * well-formed tree is, what expanding and backpropagating do to it) and the
 * lemmas about it; module Mcts holds the class whose methods do the work.
 */
module Arena {
  import opened Wrappers
  import opened Simulation

  /** One TreeNode. */
  datatype Node<A, K> = Node(
    param: real,            // exploration parameter, copied from the parent
    parent: Option<nat>,    // index of the parent; None only at the root
    action: Option<A>,      // incoming action; None only at the root
    children: map<K, nat>,  // action key -> index of the child node
    order: seq<K>,          // the keys of children in insertion order (the dict's iteration order)
    results: seq<real>,     // outcomes backpropagated through this node
    visits: nat)            // number of backpropagations through this node

  /** The node TreeNode(param, parent, action) creates. */
  function NewNode<A(!new), K(!new)>(param: real, parent: Option<nat>, action: Option<A>): Node<A, K>
  {
    Node(param, parent, action, map[], [], [], 0)
  }

  /** One backpropagation of result r at a node: visits += 1, results.append(r). */
  function Record<A(!new), K(!new)>(node: Node<A, K>, r: real): Node<A, K>
  {
    node.(visits := node.visits + 1, results := node.results + [r])
  }

  /** sum(results), added left to right. */
  function Sum(xs: seq<real>): real
  {
    if xs == [] then 0.0 else Sum(xs[..|xs| - 1]) + xs[|xs| - 1]
  }

  /** The average outcome, 0 for a node with no outcomes (as select computes it). */
  function Mean(xs: seq<real>): real
  {
    if |xs| == 0 then 0.0 else Sum(xs) / (|xs| as real)
  }

  /** Parent links point to smaller indices and only the root has none. */
  ghost predicate Linked<A(!new), K(!new)>(nodes: seq<Node<A, K>>)
  {
    forall i :: 0 <= i < |nodes| ==>
      (nodes[i].parent.None? <==> i == 0) &&
      (nodes[i].parent.Some? ==> nodes[i].parent.value < i)
  }

  /** The child stored under key k of node i is a later node whose parent is i and whose action has key k. */
  ghost predicate ChildOk<S(!new), A(!new), K(!new)>(g: Game<S, A, K>, nodes: seq<Node<A, K>>, i: nat, k: K)
    requires i < |nodes| && k in nodes[i].children
  {
    var c := nodes[i].children[k];
    i < c < |nodes| && nodes[c].parent == Some(i) &&
    nodes[c].action.Some? && g.key(nodes[c].action.value) == k
  }

  ghost predicate NodeOk<S(!new), A(!new), K(!new)>(g: Game<S, A, K>, nodes: seq<Node<A, K>>, i: nat)
    requires i < |nodes|
  {
    var node := nodes[i];
    && (node.action.None? <==> i == 0)
    && node.visits == |node.results|
    && node.param == nodes[0].param
    && (forall x, y :: 0 <= x < y < |node.order| ==> node.order[x] != node.order[y])
    && (forall k :: k in node.children <==> k in node.order)
    && (forall k :: k in node.children ==> ChildOk(g, nodes, i, k))
  }

  /** The invariant of the search tree. */
  ghost predicate WellFormed<S(!new), A(!new), K(!new)>(g: Game<S, A, K>, nodes: seq<Node<A, K>>)
  {
    |nodes| > 0 && Linked(nodes) && forall i :: 0 <= i < |nodes| ==> NodeOk(g, nodes, i)
  }

  /** Node n and all its ancestors up to the root: the path backpropagate walks. */
  ghost function Ancestry<A(!new), K(!new)>(nodes: seq<Node<A, K>>, n: nat): (r: set<nat>)
    requires Linked(nodes) && n < |nodes|
    ensures n in r && 0 in r
    ensures forall x :: x in r ==> x <= n
    decreases n
  {
    match nodes[n].parent
    case None => {n}
    case Some(p) => {n} + Ancestry(nodes, p)
  }

  /** The tree after backpropagate(r) is called at node n. */
  ghost function Backpropagated<A(!new), K(!new)>(nodes: seq<Node<A, K>>, n: nat, r: real): (after: seq<Node<A, K>>)
    requires Linked(nodes) && n < |nodes|
    ensures |after| == |nodes|
    decreases n
  {
    var recorded := nodes[n := Record(nodes[n], r)];
    assert Linked(recorded) by {
      forall i | 0 <= i < |recorded| ensures recorded[i].parent == nodes[i].parent { }
    }
    match nodes[n].parent
    case None => recorded
    case Some(p) => Backpropagated(recorded, p, r)
  }

  /**
   * The tree after expand(state, candidates) at node p picked action a and
   * before the rollout: a new node is appended under key(a), replacing the
   * entry of a child already stored under that key.
   */
  ghost function Attach<S(!new), A(!new), K(!new)>(g: Game<S, A, K>, nodes: seq<Node<A, K>>, p: nat, a: A): (after: seq<Node<A, K>>)
    requires WellFormed(g, nodes) && p < |nodes|
    ensures Linked(after) && |after| == |nodes| + 1
  {
    var k := g.key(a);
    var parent := nodes[p];
    var parent' := parent.(children := parent.children[k := |nodes|],
                           order := if k in parent.children then parent.order else parent.order + [k]);
    nodes[p := parent'] + [NewNode(parent.param, Some(p), Some(a))]
  }

  /** Two trees whose nodes differ at most in their statistics. */
  ghost predicate SameShape<A(!new), K(!new)>(a: seq<Node<A, K>>, b: seq<Node<A, K>>)
  {
    |a| == |b| &&
    forall i :: 0 <= i < |a| ==>
      a[i].param == b[i].param && a[i].parent == b[i].parent && a[i].action == b[i].action &&
      a[i].children == b[i].children && a[i].order == b[i].order
  }

  lemma ShapeKeepsWellFormed<S(!new), A(!new), K(!new)>(g: Game<S, A, K>, a: seq<Node<A, K>>, b: seq<Node<A, K>>)
    requires WellFormed(g, a) && SameShape(a, b)
    requires forall i :: 0 <= i < |b| ==> b[i].visits == |b[i].results|
    ensures WellFormed(g, b)
  {
    assert Linked(b) by {
      forall i | 0 <= i < |b| ensures a[i].parent == b[i].parent { }
    }
    forall i | 0 <= i < |b| ensures NodeOk(g, b, i) {
      assert NodeOk(g, a, i);
      forall k | k in b[i].children ensures ChildOk(g, b, i, k) {
        assert ChildOk(g, a, i, k);
      }
    }
  }

  /** Parent links of a agree with those of b on all nodes of a. */
  ghost predicate PrefixLinks<A(!new), K(!new)>(a: seq<Node<A, K>>, b: seq<Node<A, K>>)
  {
    |a| <= |b| && forall i :: 0 <= i < |a| ==> a[i].parent == b[i].parent
  }

  lemma {:induction false} AncestryAgree<A(!new), K(!new)>(a: seq<Node<A, K>>, b: seq<Node<A, K>>, n: nat)
    requires Linked(a) && Linked(b) && PrefixLinks(a, b) && n < |a|
    ensures Ancestry(a, n) == Ancestry(b, n)
    decreases n
  {
    match a[n].parent
    case None =>
    case Some(p) => AncestryAgree(a, b, p);
  }

  /** backpropagate(r) at n records r at n and at every ancestor of n, and nowhere else. */
  lemma {:induction false} BackpropagatedAt<A(!new), K(!new)>(nodes: seq<Node<A, K>>, n: nat, r: real)
    requires Linked(nodes) && n < |nodes|
    ensures forall i :: 0 <= i < |nodes| ==>
      Backpropagated(nodes, n, r)[i] == if i in Ancestry(nodes, n) then Record(nodes[i], r) else nodes[i]
    decreases n
  {
    var recorded := nodes[n := Record(nodes[n], r)];
    assert PrefixLinks(recorded, nodes) by {
      forall i | 0 <= i < |recorded| ensures recorded[i].parent == nodes[i].parent { }
    }
    assert Linked(recorded);
    match nodes[n].parent
    case None =>
    case Some(p) =>
      BackpropagatedAt(recorded, p, r);
      AncestryAgree(recorded, nodes, p);
  }

  /** Backpropagation changes only statistics, and keeps visits == |results| at every node. */
  lemma BackpropagatedKeepsWellFormed<S(!new), A(!new), K(!new)>(g: Game<S, A, K>, nodes: seq<Node<A, K>>, n: nat, r: real)
    requires WellFormed(g, nodes) && n < |nodes|
    ensures SameShape(nodes, Backpropagated(nodes, n, r))
    ensures WellFormed(g, Backpropagated(nodes, n, r))
  {
    BackpropagatedAt(nodes, n, r);
    var after := Backpropagated(nodes, n, r);
    forall i | 0 <= i < |after| ensures after[i].visits == |after[i].results| {
      assert NodeOk(g, nodes, i);
    }
    ShapeKeepsWellFormed(g, nodes, after);
  }

  /** Every node of the tree after inserting the new child satisfies the node invariant. */
  lemma AttachNodeOk<S(!new), A(!new), K(!new)>(g: Game<S, A, K>, nodes: seq<Node<A, K>>, p: nat, a: A, i: nat)
    requires WellFormed(g, nodes) && p < |nodes| && i <= |nodes|
    ensures NodeOk(g, Attach(g, nodes, p, a), i)
  {
    var after := Attach(g, nodes, p, a);
    var k := g.key(a);
    assert NodeOk(g, nodes, p);
    if i < |nodes| {
      assert NodeOk(g, nodes, i);
      forall k' | k' in after[i].children ensures ChildOk(g, after, i, k') {
        if i != p || k' != k {
          assert ChildOk(g, nodes, i, k');
        }
      }
      if i == p && k !in nodes[p].children {
        var order := after[p].order;
        assert order == nodes[p].order + [k];
        forall x, y | 0 <= x < y < |order| ensures order[x] != order[y] {
          if y == |order| - 1 {
            assert order[x] in nodes[p].order;
          }
        }
      }
    }
  }

  lemma AttachKeepsWellFormed<S(!new), A(!new), K(!new)>(g: Game<S, A, K>, nodes: seq<Node<A, K>>, p: nat, a: A)
    requires WellFormed(g, nodes) && p < |nodes|
    ensures WellFormed(g, Attach(g, nodes, p, a))
  {
    forall i | 0 <= i < |Attach(g, nodes, p, a)| ensures NodeOk(g, Attach(g, nodes, p, a), i) {
      AttachNodeOk(g, nodes, p, a, i);
    }
  }

  /**
   * Inserting the new child keeps the tree well formed; the child's parent
   * is p, its action a, its param p's; p's other entries are unchanged and
   * no other node changes.
   */
  lemma AttachEffects<S(!new), A(!new), K(!new)>(g: Game<S, A, K>, nodes: seq<Node<A, K>>, p: nat, a: A)
    requires WellFormed(g, nodes) && p < |nodes|
    ensures var after := Attach(g, nodes, p, a);
      && WellFormed(g, after)
      && after[|nodes|] == NewNode(nodes[p].param, Some(p), Some(a))
      && g.key(a) in after[p].children && after[p].children[g.key(a)] == |nodes|
      && (forall k :: k != g.key(a) ==>
            (k in after[p].children <==> k in nodes[p].children) &&
            (k in nodes[p].children ==> after[p].children[k] == nodes[p].children[k]))
      && |after[p].children| == |nodes[p].children| + (if g.key(a) in nodes[p].children then 0 else 1)
      && after[p].results == nodes[p].results && after[p].visits == nodes[p].visits
      && after[p].parent == nodes[p].parent && after[p].action == nodes[p].action
      && (forall i :: 0 <= i < |nodes| && i != p ==> after[i] == nodes[i])
  {
    AttachKeepsWellFormed(g, nodes, p, a);
    var after := Attach(g, nodes, p, a);
    var k := g.key(a);
    if k in nodes[p].children {
      assert after[p].children.Keys == nodes[p].children.Keys;
    } else {
      assert after[p].children.Keys == nodes[p].children.Keys + {k};
    }
  }

  /** The actions whose key has no child yet, in order: [a for a in actions if a.key() not in children]. */
  function Unexplored<S(!new), A(!new), K(!new)>(g: Game<S, A, K>, actions: seq<A>, children: map<K, nat>): (r: seq<A>)
    ensures forall a :: a in r <==> a in actions && g.key(a) !in children
    ensures |r| <= |actions|
  {
    if actions == [] then []
    else
      var rest := Unexplored(g, actions[1..], children);
      if g.key(actions[0]) !in children then [actions[0]] + rest else rest
  }

  /**
   * One expansion: expand at node p picked action a, inserted the new node
   * and the rollout from it backpropagated result r.
   */
  ghost predicate Expansion<S(!new), A(!new), K(!new)>(g: Game<S, A, K>, before: seq<Node<A, K>>, after: seq<Node<A, K>>, p: nat, a: A, r: real)
    requires WellFormed(g, before)
  {
    p < |before| && after == Backpropagated(Attach(g, before, p, a), |before|, r)
  }

  /**
   * What step at node n may do to the tree: one expansion at n or below n,
   * under a key that had no child yet, recording result r.
   */
  ghost predicate GrewBelow<S(!new), A(!new), K(!new)>(g: Game<S, A, K>, before: seq<Node<A, K>>, after: seq<Node<A, K>>, n: nat, r: real)
    requires WellFormed(g, before)
  {
    exists p: nat, a: A :: p < |before| && Expansion(g, before, after, p, a, r) &&
      n in Ancestry(before, p) && g.key(a) !in before[p].children
  }

  /** If q is on the path from p to the root, so is q's parent. */
  lemma {:induction false} AncestryClosed<A(!new), K(!new)>(nodes: seq<Node<A, K>>, p: nat, q: nat, n: nat)
    requires Linked(nodes) && p < |nodes| && q in Ancestry(nodes, p) && q < |nodes| && nodes[q].parent == Some(n)
    ensures n in Ancestry(nodes, p)
    decreases p
  {
    if q != p {
      match nodes[p].parent
      case None =>
      case Some(p') => AncestryClosed(nodes, p', q, n);
    }
  }

  /**
   * The effect of one expansion: one node more, a visit and the result
   * recorded at the new node and at every node on its path to the root
   * (the root's visits grow by exactly one), and nothing else changes.
   */
  lemma GrowthEffects<S(!new), A(!new), K(!new)>(g: Game<S, A, K>, before: seq<Node<A, K>>, p: nat, a: A, r: real)
    requires WellFormed(g, before) && p < |before|
    ensures var after := Backpropagated(Attach(g, before, p, a), |before|, r);
      && WellFormed(g, after) && |after| == |before| + 1
      && SameShape(Attach(g, before, p, a), after)
      && after[|before|].parent == Some(p) && after[|before|].action == Some(a)
      && after[|before|].visits == 1 && after[|before|].results == [r]
      && after[0].visits == before[0].visits + 1
      && (forall i :: 0 <= i < |before| ==>
            after[i].param == before[i].param && after[i].parent == before[i].parent &&
            if i in Ancestry(before, p)
            then after[i].visits == before[i].visits + 1 && after[i].results == before[i].results + [r]
            else after[i].visits == before[i].visits && after[i].results == before[i].results)
  {
    var mid := Attach(g, before, p, a);
    var c := |before|;
    AttachEffects(g, before, p, a);
    BackpropagatedKeepsWellFormed(g, mid, c, r);
    BackpropagatedAt(mid, c, r);
    assert Ancestry(mid, c) == {c} + Ancestry(mid, p);
    assert PrefixLinks(before, mid) by {
      forall i | 0 <= i < |before| ensures before[i].parent == mid[i].parent { }
    }
    AncestryAgree(before, mid, p);
    assert 0 in Ancestry(before, p);
  }

  /** An expansion under a key that had no child loses no existing child entry. */
  lemma GrowthKeepsChildren<S(!new), A(!new), K(!new)>(g: Game<S, A, K>, before: seq<Node<A, K>>, p: nat, a: A, r: real)
    requires WellFormed(g, before) && p < |before| && g.key(a) !in before[p].children
    ensures var after := Backpropagated(Attach(g, before, p, a), |before|, r);
      forall i, k :: 0 <= i < |before| && k in before[i].children ==>
        k in after[i].children && after[i].children[k] == before[i].children[k]
  {
    AttachEffects(g, before, p, a);
    BackpropagatedKeepsWellFormed(g, Attach(g, before, p, a), |before|, r);
  }

  /** The nodes other than the root whose creating rollout passed through node i. */
  ghost function Rollouts<A(!new), K(!new)>(nodes: seq<Node<A, K>>, i: nat): set<nat>
    requires Linked(nodes)
  {
    set j | 0 < j < |nodes| && i in Ancestry(nodes, j)
  }

  /** Every node's visit count is the number of rollouts that passed through it. */
  ghost predicate VisitsCountRollouts<A(!new), K(!new)>(nodes: seq<Node<A, K>>)
    requires Linked(nodes)
  {
    forall i :: 0 <= i < |nodes| ==> nodes[i].visits == |Rollouts(nodes, i)|
  }

  /**
   * After one expansion the parent links of the old nodes are as before, and
   * the path from the new node to the root is the new node followed by the
   * path from p.
   */
  lemma GrowthLinks<S(!new), A(!new), K(!new)>(g: Game<S, A, K>, before: seq<Node<A, K>>, p: nat, a: A, r: real)
    requires WellFormed(g, before) && p < |before|
    ensures var after := Backpropagated(Attach(g, before, p, a), |before|, r);
      && Linked(after) && |after| == |before| + 1
      && (forall j :: 0 <= j < |before| ==> Ancestry(after, j) == Ancestry(before, j))
      && Ancestry(after, |before|) == {|before|} + Ancestry(before, p)
  {
    var mid := Attach(g, before, p, a);
    var c := |before|;
    var after := Backpropagated(mid, c, r);
    AttachEffects(g, before, p, a);
    BackpropagatedKeepsWellFormed(g, mid, c, r);
    assert PrefixLinks(before, after) by {
      forall i | 0 <= i < |before| ensures before[i].parent == after[i].parent {
        assert mid[i].parent == before[i].parent;
      }
    }
    forall j | 0 <= j < c ensures Ancestry(after, j) == Ancestry(before, j) {
      AncestryAgree(before, after, j);
    }
    assert after[c].parent == Some(p);
  }

  /** The rollout of the new node c passes through c and its ancestors, and only they. */
  lemma RolloutsGrow<A(!new), K(!new)>(before: seq<Node<A, K>>, after: seq<Node<A, K>>, p: nat, i: nat)
    requires Linked(before) && Linked(after) && |after| == |before| + 1 && p < |before| && i < |after|
    requires forall j :: 0 <= j < |before| ==> Ancestry(after, j) == Ancestry(before, j)
    requires Ancestry(after, |before|) == {|before|} + Ancestry(before, p)
    ensures i < |before| ==>
      Rollouts(after, i) == Rollouts(before, i) + (if i in Ancestry(before, p) then {|before|} else {})
    ensures i < |before| ==> |before| !in Rollouts(before, i)
    ensures i == |before| ==> Rollouts(after, i) == {|before|}
  {
    var c := |before|;
    if i < c {
      var extra: set<nat> := if i in Ancestry(before, p) then {c} else {};
      forall j | j in Rollouts(after, i) ensures j in Rollouts(before, i) + extra {
        if j < c {
          assert i in Ancestry(before, j);
        }
      }
      forall j | j in Rollouts(before, i) + extra ensures j in Rollouts(after, i) {
        if j < c {
          assert i in Ancestry(after, j);
        }
      }
    } else {
      forall j | 0 <= j < c ensures c !in Ancestry(after, j) {
        assert Ancestry(after, j) == Ancestry(before, j);
      }
      assert c in Rollouts(after, i);
    }
  }

  /** Each expansion keeps every node's visit count equal to the number of rollouts through it. */
  lemma GrowthKeepsVisitCounts<S(!new), A(!new), K(!new)>(g: Game<S, A, K>, before: seq<Node<A, K>>, p: nat, a: A, r: real)
    requires WellFormed(g, before) && p < |before| && VisitsCountRollouts(before)
    ensures WellFormed(g, Backpropagated(Attach(g, before, p, a), |before|, r))
    ensures VisitsCountRollouts(Backpropagated(Attach(g, before, p, a), |before|, r))
  {
    var after := Backpropagated(Attach(g, before, p, a), |before|, r);
    var c := |before|;
    GrowthEffects(g, before, p, a, r);
    GrowthLinks(g, before, p, a, r);
    forall i | 0 <= i < |after| ensures after[i].visits == |Rollouts(after, i)| {
      RolloutsGrow(before, after, p, i);
    }
  }

  /**
   * What one step does to the tree, from its postcondition: at most one node
   * more, the root's visits grow by one exactly when a node was added, no
   * existing child entry is lost, and visit counts keep matching rollouts.
   */
  lemma StepGrowsByAtMostOne<S(!new), A(!new), K(!new)>(g: Game<S, A, K>, before: seq<Node<A, K>>, after: seq<Node<A, K>>, n: nat, r: real)
    requires WellFormed(g, before) && n < |before|
    requires after == before || GrewBelow(g, before, after, n, r)
    ensures WellFormed(g, after)
    ensures |before| <= |after| <= |before| + 1
    ensures after[0].visits == before[0].visits + (|after| - |before|)
    ensures after[n].visits == before[n].visits + (|after| - |before|)
    ensures after[0].param == before[0].param
    ensures |after| > |before| ==> after[0].results == before[0].results + [r]
    ensures forall i, k :: 0 <= i < |before| && k in before[i].children ==>
      k in after[i].children && after[i].children[k] == before[i].children[k]
    ensures VisitsCountRollouts(before) ==> VisitsCountRollouts(after)
  {
    if after != before {
      var p: nat, a: A :| p < |before| && Expansion(g, before, after, p, a, r) &&
        n in Ancestry(before, p) && g.key(a) !in before[p].children;
      GrowthEffects(g, before, p, a, r);
      GrowthKeepsChildren(g, before, p, a, r);
      if VisitsCountRollouts(before) {
        GrowthKeepsVisitCounts(g, before, p, a, r);
      }
    }
  }

  /**
   * An expansion at or below a child c of n leaves n's children and their
   * order as they were: a fully explored node gains no child when step
   * descends from it.
   */
  lemma GrowthUnderChildKeepsParent<S(!new), A(!new), K(!new)>(g: Game<S, A, K>, before: seq<Node<A, K>>, after: seq<Node<A, K>>, n: nat, c: nat, r: real)
    requires WellFormed(g, before) && n < c < |before| && GrewBelow(g, before, after, c, r)
    ensures after[n].children == before[n].children && after[n].order == before[n].order
  {
    var p: nat, a: A :| p < |before| && Expansion(g, before, after, p, a, r) &&
      c in Ancestry(before, p) && g.key(a) !in before[p].children;
    assert n != p;
    GrowthEffects(g, before, p, a, r);
    AttachEffects(g, before, p, a);
  }

  /** The child stored under the j-th key in iteration order. */
  function ChildAt<S(!new), A(!new), K(!new)>(g: Game<S, A, K>, nodes: seq<Node<A, K>>, n: nat, j: nat): (c: nat)
    requires WellFormed(g, nodes) && n < |nodes| && j < |nodes[n].order|
    ensures n < c < |nodes| && nodes[c].action.Some?
  {
    assert NodeOk(g, nodes, n);
    assert ChildOk(g, nodes, n, nodes[n].order[j]);
    nodes[n].children[nodes[n].order[j]]
  }

  /**
   * Among the first m children of n in iteration order, the b-th is visited,
   * its average is at least that of every visited one, and greater than that
   * of every visited one before it.
   */
  ghost predicate BestAmong<S(!new), A(!new), K(!new)>(g: Game<S, A, K>, nodes: seq<Node<A, K>>, n: nat, b: nat, m: nat)
    requires WellFormed(g, nodes) && n < |nodes| && m <= |nodes[n].order|
  {
    && b < m
    && nodes[ChildAt(g, nodes, n, b)].visits > 0
    && (forall j :: 0 <= j < m && nodes[ChildAt(g, nodes, n, j)].visits > 0 ==>
          Mean(nodes[ChildAt(g, nodes, n, j)].results) <= Mean(nodes[ChildAt(g, nodes, n, b)].results))
    && (forall j :: 0 <= j < b && nodes[ChildAt(g, nodes, n, j)].visits > 0 ==>
          Mean(nodes[ChildAt(g, nodes, n, j)].results) < Mean(nodes[ChildAt(g, nodes, n, b)].results))
  }

  /** Ties go to the first: at most one child is best among the first m. */
  lemma BestIsUnique<S(!new), A(!new), K(!new)>(g: Game<S, A, K>, nodes: seq<Node<A, K>>, n: nat, b1: nat, b2: nat, m: nat)
    requires WellFormed(g, nodes) && n < |nodes| && m <= |nodes[n].order|
    requires BestAmong(g, nodes, n, b1, m) && BestAmong(g, nodes, n, b2, m)
    ensures b1 == b2
  {
  }

  /** What get_best(state) at node n may return. */
  ghost predicate IsBestChoice<S(!new), A(!new), K(!new)>(g: Game<S, A, K>, nodes: seq<Node<A, K>>, n: nat, state: S, best: Option<A>)
    requires WellFormed(g, nodes) && n < |nodes|
  {
    if nodes[n].children == map[] then
      (best.None? <==> g.actions(state) == []) &&
      (best.Some? ==> best.value in g.actions(state))
    else
      assert NodeOk(g, nodes, n);
      (best.None? <==> forall j :: 0 <= j < |nodes[n].order| ==> nodes[ChildAt(g, nodes, n, j)].visits == 0) &&
      (best.Some? ==> exists b :: BestAmong(g, nodes, n, b, |nodes[n].order|) &&
                                 nodes[ChildAt(g, nodes, n, b)].action == Some(best.value))
  }

  /** The UCB-1 value select gives each child of n, in iteration order; the exploration term is explore(parent visits, child visits). */
  function UcbScores<S(!new), A(!new), K(!new)>(g: Game<S, A, K>, nodes: seq<Node<A, K>>, n: nat, explore: (nat, nat) -> real): (scores: seq<real>)
    requires WellFormed(g, nodes) && n < |nodes|
    ensures |scores| == |nodes[n].order|
  {
    seq(|nodes[n].order|, j requires 0 <= j < |nodes[n].order| =>
      Mean(nodes[ChildAt(g, nodes, n, j)].results) +
      explore(|nodes[n].results|, |nodes[ChildAt(g, nodes, n, j)].results|))
  }

  /** The index max() returns: the first position holding the largest value. */
  function FirstMax(xs: seq<real>): (m: nat)
    requires xs != []
    ensures m < |xs|
    ensures forall j :: 0 <= j < |xs| ==> xs[j] <= xs[m]
    ensures forall j :: 0 <= j < m ==> xs[j] < xs[m]
    decreases |xs|
  {
    if |xs| == 1 then 0
    else
      var m := FirstMax(xs[..|xs| - 1]);
      if xs[|xs| - 1] > xs[m] then |xs| - 1 else m
  }

  /** With exploration switched off, select descends into a child of greatest average outcome. */
  lemma ZeroExplorationIsGreedy<S(!new), A(!new), K(!new)>(g: Game<S, A, K>, nodes: seq<Node<A, K>>, n: nat, explore: (nat, nat) -> real)
    requires WellFormed(g, nodes) && n < |nodes| && nodes[n].order != []
    requires forall pv, cv :: explore(pv, cv) == 0.0
    ensures var m := FirstMax(UcbScores(g, nodes, n, explore));
      m < |nodes[n].order| &&
      (forall j :: 0 <= j < |nodes[n].order| ==>
        Mean(nodes[ChildAt(g, nodes, n, j)].results) <= Mean(nodes[ChildAt(g, nodes, n, m)].results)) &&
      (forall j :: 0 <= j < m ==>
        Mean(nodes[ChildAt(g, nodes, n, j)].results) < Mean(nodes[ChildAt(g, nodes, n, m)].results))
  {
    var scores := UcbScores(g, nodes, n, explore);
    var m := FirstMax(scores);
    forall j | 0 <= j < |scores| ensures scores[j] == Mean(nodes[ChildAt(g, nodes, n, j)].results) {
      assert explore(|nodes[n].results|, |nodes[ChildAt(g, nodes, n, j)].results|) == 0.0;
    }
  }

  /**
   * When select expands with a key that already has a child, that child is
   * dropped from children (its subtree is lost) and the number of children
   * does not grow.
   */
  lemma AttachOverExplored<S(!new), A(!new), K(!new)>(g: Game<S, A, K>, nodes: seq<Node<A, K>>, p: nat, a: A)
    requires WellFormed(g, nodes) && p < |nodes| && g.key(a) in nodes[p].children
    ensures var after := Attach(g, nodes, p, a);
      |after[p].children| == |nodes[p].children| &&
      nodes[p].children[g.key(a)] !in after[p].children.Values
  {
    AttachEffects(g, nodes, p, a);
    var after := Attach(g, nodes, p, a);
    var k := g.key(a);
    var dropped := nodes[p].children[k];
    assert NodeOk(g, nodes, p);
    assert ChildOk(g, nodes, p, k);
    forall k' | k' in after[p].children ensures after[p].children[k'] != dropped {
      if k' != k {
        assert ChildOk(g, nodes, p, k');
      }
    }
  }
}
