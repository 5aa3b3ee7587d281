/** Greedy best-first, uniform-cost and A* search of
    backend/src/code/GenericSearch.java. The priority queue is a `seq`
    from which `poll` takes some node of smallest key; Java's
    `PriorityQueue` does not fix which one among equal keys. */
module InformedSearch {
  import opened Wrappers
  import opened Costs
  import opened SearchModel
  import opened Frontier

  // ------------------------------------------------------------------
  // Greedy best-first search

  /** The expansion step of `greedySearch`: mark the popped state
      expanded, count it, and queue the children of unexpanded states. */
  method ExpandGreedy<S(==), A(==,!new)>(P: Problem<S, A>, ghost U: set<S>, node: Node<S, A>,
                                         frontier: seq<Node<S, A>>, explored: set<S>, count: nat, ghost T: set<S>)
    returns (frontier': seq<Node<S, A>>, explored': set<S>, count': nat)
    requires Closed(P, U) && FrontierOk(P, U, frontier)
    requires ValidNode(P, node) && node.state in U && !P.isGoal(node.state) && node.state !in explored
    requires ExpandedStates(P, U, explored, count) && Complete(P, explored, T) && T <= StatesOf(frontier) + {node.state}
    ensures frontier' == frontier + Children(P, node, P.actions(node.state), explored')
    ensures explored' == explored + {node.state} && count' == count + 1
    ensures FrontierOk(P, U, frontier')
    ensures ExpandedStates(P, U, explored', count') && Complete(P, explored', StatesOf(frontier'))
    ensures |U - explored'| < |U - explored|
  {
    NodeReachable(P, node);
    var acts := P.actions(node.state);
    OfferedHaveResults(P, U, node.state);
    ChildrenFacts(P, U, node, acts, explored + {node.state});
    ghost var kids := Children(P, node, acts, explored + {node.state});
    FrontierOkAppend(P, U, frontier, kids);
    ExpandStep(P, U, explored, count, T, StatesOf(frontier) + StatesOf(kids), node.state);
    explored' := explored + {node.state};
    count' := count + 1;
    frontier' := PushChildren(P, node, acts, explored', frontier);
  }

  /** The priority of greedy search: the heuristic value of the node's state. */
  function GreedyKeys<S, A>(h: S -> int, q: seq<Node<S, A>>): (keys: seq<Cost>)
    ensures |keys| == |q| && forall i :: 0 <= i < |q| ==> keys[i] == Fin(h(q[i].state))
  {
    seq(|q|, i requires 0 <= i < |q| => Fin(h(q[i].state)))
  }

  /** `greedySearch`: poll a node of smallest `h`, goal-test it, skip it if
      its state was expanded, else expand it. */
  method GreedyBestFirst<S(==), A(==,!new)>(P: Problem<S, A>, ghost U: set<S>, h: S -> int) returns (r: SearchResult<A>)
    requires Closed(P, U) && P.initial in U
    ensures Outcome(P, r)
    ensures NoPath(r) <==> !GoalReachable(P)
    ensures r.nodesExpanded <= |ReachableStates(P, U)|
    ensures NoPath(r) ==> r.nodesExpanded == |ReachableStates(P, U)|
  {
    var frontier := [Root(P)];
    var explored: set<S> := {};
    var nodesExpanded := 0;
    StatesOfAppend([], [Root(P)]);
    CompleteInit(P);
    while frontier != []
      invariant FrontierOk(P, U, frontier)
      invariant ExpandedStates(P, U, explored, nodesExpanded)
      invariant Complete(P, explored, StatesOf(frontier))
      decreases |U - explored|, |frontier|
    {
      var keys := GreedyKeys(h, frontier);
      MinExists(keys);
      var k :| 0 <= k < |keys| && IsMinAt(keys, k);
      var node := frontier[k];
      PollAt(P, U, frontier, k);
      ghost var T := StatesOf(frontier);
      frontier := frontier[..k] + frontier[k + 1..];

      if P.isGoal(node.state) {
        var path := ExtractPath(node);
        GoalResult(P, node);
        ExpandedBound(P, U, explored);
        return SearchResult(path, node.pathCost, nodesExpanded);
      }

      if node.state in explored {
        CompleteSkip(P, explored, T, StatesOf(frontier), node.state);
        continue;
      }

      frontier, explored, nodesExpanded := ExpandGreedy(P, U, node, frontier, explored, nodesExpanded, T);
    }
    r := NoPathResult(nodesExpanded);
    ExhaustedSearch(P, U, explored, nodesExpanded);
  }

  // ------------------------------------------------------------------
  // The best-cost map of uniform-cost and A* search

  /** Expanding `s` through `a` cannot improve on `best` any more. */
  ghost predicate Relaxed<S, A>(P: Problem<S, A>, best: map<S, Cost>, s: S, a: A) {
    && s in best && P.result(s, a).Some?
    && var t := P.result(s, a).value;
       t in best && Le(best[t], Add(best[s], P.stepCost(s, a, t)))
  }

  /** A state of `best` is either still to be expanded at its best cost (a
      frontier node holds it at that cost) or it was expanded at that cost:
      it is not a goal and none of its successors can be improved through it. */
  ghost predicate Accounted<S, A>(P: Problem<S, A>, frontier: seq<Node<S, A>>, best: map<S, Cost>, s: S) {
    && s in best
    && ((exists n :: n in frontier && n.state == s && n.pathCost == best[s])
        || (!P.isGoal(s) && forall a :: a in P.actions(s) && P.result(s, a).Some? ==> Relaxed(P, best, s, a)))
  }

  /** The loop invariant of uniform-cost and A* search, with the states of
      `pending` (the one being expanded) exempt from `Accounted`. */
  ghost predicate BestCosts<S, A>(P: Problem<S, A>, U: set<S>, frontier: seq<Node<S, A>>, best: map<S, Cost>, pending: set<S>) {
    && FrontierOk(P, U, frontier)
    && best.Keys <= U
    && (forall n :: n in frontier ==> n.state in best && Le(best[n.state], n.pathCost))
    && P.initial in best && Le(best[P.initial], Fin(0))
    && (forall s :: s in best ==> NonNegative(best[s]))
    && (forall s :: s in best && s !in pending ==> Accounted(P, frontier, best, s))
  }

  /** The termination measure: new states, then infinite costs, then the
      sum of the finite costs. */
  ghost function InfCount<S>(m: map<S, Cost>): nat {
    |InfKeys(m)|
  }

  ghost function InfKeys<S>(m: map<S, Cost>): set<S> {
    set s | s in m && m[s] == Inf
  }

  ghost function FinVal(c: Cost): nat {
    if c.Fin? && c.v >= 0 then c.v else 0
  }

  /** The sum of the finite costs of `m` over `keys`. */
  ghost function SumOver<S>(m: map<S, Cost>, keys: set<S>): nat
    requires keys <= m.Keys
    decreases keys
  {
    if keys == {} then 0 else var s :| s in keys; FinVal(m[s]) + SumOver(m, keys - {s})
  }

  ghost function FinSum<S>(m: map<S, Cost>): nat {
    SumOver(m, m.Keys)
  }

  lemma {:induction false} SumOverRemove<S>(m: map<S, Cost>, keys: set<S>, s: S)
    requires keys <= m.Keys && s in keys
    ensures SumOver(m, keys) == FinVal(m[s]) + SumOver(m, keys - {s})
    decreases keys
  {
    var x :| x in keys && SumOver(m, keys) == FinVal(m[x]) + SumOver(m, keys - {x});
    if x != s {
      SumOverRemove(m, keys - {x}, s);
      SumOverRemove(m, keys - {s}, x);
      assert keys - {x} - {s} == keys - {s} - {x};
    }
  }

  lemma {:induction false} SumOverAgree<S>(m1: map<S, Cost>, m2: map<S, Cost>, keys: set<S>)
    requires keys <= m1.Keys && keys <= m2.Keys
    requires forall s :: s in keys ==> m1[s] == m2[s]
    ensures SumOver(m1, keys) == SumOver(m2, keys)
    decreases keys
  {
    if keys != {} {
      var x :| x in keys;
      SumOverRemove(m1, keys, x);
      SumOverRemove(m2, keys, x);
      SumOverAgree(m1, m2, keys - {x});
    }
  }

  /** `m'` is strictly below `m` in the lexicographic measure. */
  ghost predicate Improves<S>(U: set<S>, m': map<S, Cost>, m: map<S, Cost>) {
    || |U - m'.Keys| < |U - m.Keys|
    || (|U - m'.Keys| == |U - m.Keys| &&
         (InfCount(m') < InfCount(m) || (InfCount(m') == InfCount(m) && FinSum(m') < FinSum(m))))
  }

  lemma ImprovesTrans<S>(U: set<S>, m1: map<S, Cost>, m2: map<S, Cost>, m3: map<S, Cost>)
    requires Improves(U, m1, m2) && Improves(U, m2, m3)
    ensures Improves(U, m1, m3)
  {
  }

  /** Lowering a finite cost lowers the finite sum. */
  lemma LowerFinite<S>(m: map<S, Cost>, t: S, c: Cost)
    requires t in m && m[t].Fin? && NonNegative(c) && Lt(c, m[t])
    ensures FinSum(m[t := c]) < FinSum(m)
  {
    var m' := m[t := c];
    assert m'.Keys == m.Keys;
    SumOverRemove(m, m.Keys, t);
    SumOverRemove(m', m.Keys, t);
    SumOverAgree(m, m', m.Keys - {t});
  }

  /** Lowering a cost of `m` to a finite one improves the measure. */
  lemma LowerImproves<S>(U: set<S>, m: map<S, Cost>, t: S, c: Cost)
    requires t in m && NonNegative(c) && Lt(c, m[t])
    ensures Improves(U, m[t := c], m)
  {
    var m' := m[t := c];
    assert m'.Keys == m.Keys;
    if m[t] == Inf {
      assert InfKeys(m') == InfKeys(m) - {t};
    } else {
      assert InfKeys(m') == InfKeys(m);
      LowerFinite(m, t, c);
    }
  }

  /** Lowering the cost of a state, or adding a state of `U`, improves the measure. */
  lemma UpdateImproves<S>(U: set<S>, m: map<S, Cost>, t: S, c: Cost)
    requires t in U && m.Keys <= U && NonNegative(c)
    requires t !in m || Lt(c, m[t])
    ensures Improves(U, m[t := c], m)
  {
    if t !in m {
      GrowShrinksRemainder(U, m.Keys, t);
      assert m[t := c].Keys == m.Keys + {t};
    } else {
      LowerImproves(U, m, t, c);
    }
  }

  lemma CostInit<S, A>(P: Problem<S, A>, U: set<S>)
    requires P.initial in U
    ensures BestCosts(P, U, [Root(P)], map[P.initial := Fin(0)], {})
  {
    assert Root(P) in [Root(P)];
  }

  /** Values that stay in the frontier after polling index `k`. */
  lemma Survivors<S, A>(q: seq<Node<S, A>>, k: int)
    requires 0 <= k < |q|
    ensures forall n :: n in q && n != q[k] ==> n in q[..k] + q[k + 1..]
    ensures forall n :: n in q[..k] + q[k + 1..] ==> n in q
  {
    assert q == q[..k] + [q[k]] + q[k + 1..];
  }

  /** Polling a node whose cost exceeds its state's best cost loses no witness. */
  lemma CostStale<S, A>(P: Problem<S, A>, U: set<S>, frontier: seq<Node<S, A>>, best: map<S, Cost>, k: int)
    requires BestCosts(P, U, frontier, best, {}) && 0 <= k < |frontier|
    requires frontier[k].state in best && Lt(best[frontier[k].state], frontier[k].pathCost)
    ensures BestCosts(P, U, frontier[..k] + frontier[k + 1..], best, {})
  {
    Survivors(frontier, k);
    var rest := frontier[..k] + frontier[k + 1..];
    forall s | s in best
      ensures Accounted(P, rest, best, s)
    {
      if n :| n in frontier && n.state == s && n.pathCost == best[s] {
        assert n != frontier[k];
        assert n in rest;
      }
    }
  }

  /** Polling the node to expand: it holds its state's best cost, and every
      other state keeps its witness. */
  lemma CostExpandStart<S, A>(P: Problem<S, A>, U: set<S>, frontier: seq<Node<S, A>>, best: map<S, Cost>, k: int)
    requires BestCosts(P, U, frontier, best, {}) && 0 <= k < |frontier|
    requires !(frontier[k].state in best && Lt(best[frontier[k].state], frontier[k].pathCost))
    ensures BestCosts(P, U, frontier[..k] + frontier[k + 1..], best, {frontier[k].state})
    ensures frontier[k].state in best && best[frontier[k].state] == frontier[k].pathCost
    ensures ValidNode(P, frontier[k]) && frontier[k].state in U
  {
    Survivors(frontier, k);
    assert frontier[k] in frontier;
    var rest := frontier[..k] + frontier[k + 1..];
    forall s | s in best && s != frontier[k].state
      ensures Accounted(P, rest, best, s)
    {
      if n :| n in frontier && n.state == s && n.pathCost == best[s] {
        assert n in rest;
      }
    }
  }

  /** Lowering the best cost of a state to that of a newly queued node
      keeps every other state accounted for. */
  lemma LowerKeepsAccounted<S, A>(P: Problem<S, A>, frontier: seq<Node<S, A>>, best: map<S, Cost>, child: Node<S, A>, s: S,
                                  best': map<S, Cost>)
    requires child.state !in best || Lt(child.pathCost, best[child.state])
    requires best' == best[child.state := child.pathCost]
    requires forall x :: x in best && x != s ==> Accounted(P, frontier, best, x)
    ensures forall x :: x in best' && x != s ==> Accounted(P, frontier + [child], best', x)
  {
    var t := child.state;
    var frontier' := frontier + [child];
    forall x | x in best' && x != s
      ensures Accounted(P, frontier', best', x)
    {
      if x == t {
        assert child in frontier';
      } else if n :| n in frontier && n.state == x && n.pathCost == best[x] {
        assert n in frontier';
      } else {
        assert Accounted(P, frontier, best, x);
        forall b | b in P.actions(x) && P.result(x, b).Some?
          ensures Relaxed(P, best', x, b)
        {
          assert Relaxed(P, best, x, b);
        }
      }
    }
  }

  /** Queueing a node whose cost lowers its state's best cost keeps the invariant. */
  lemma QueueLowered<S, A>(P: Problem<S, A>, U: set<S>, frontier: seq<Node<S, A>>, best: map<S, Cost>,
                           child: Node<S, A>, s: S, best': map<S, Cost>)
    requires BestCosts(P, U, frontier, best, {s})
    requires ValidNode(P, child) && child.state in U && NonNegative(child.pathCost)
    requires child.state !in best || Lt(child.pathCost, best[child.state])
    requires best' == best[child.state := child.pathCost] && child.state != s
    ensures BestCosts(P, U, frontier + [child], best', {s})
  {
    assert forall n :: n in frontier + [child] <==> n in frontier || n == child;
    LowerKeepsAccounted(P, frontier, best, child, s, best');
  }

  /** One improving relaxation of the expansion of `node` through `a`:
      record the new cost and queue the child. */
  lemma RelaxStep<S, A>(P: Problem<S, A>, U: set<S>, node: Node<S, A>, a: A,
                        frontier: seq<Node<S, A>>, best: map<S, Cost>, done: seq<A>)
    requires Closed(P, U) && NonNegativeSteps(P, U)
    requires ValidNode(P, node) && node.state in U && a in P.actions(node.state)
    requires BestCosts(P, U, frontier, best, {node.state})
    requires node.state in best && best[node.state] == node.pathCost
    requires forall b :: b in done ==> Relaxed(P, best, node.state, b)
    requires var t := P.result(node.state, a).value;
      t !in best || Lt(Add(node.pathCost, P.stepCost(node.state, a, t)), best[t])
    ensures var t := P.result(node.state, a).value;
      var child := Child(P, node, a, t);
      var best' := best[t := child.pathCost];
      && t != node.state
      && BestCosts(P, U, frontier + [child], best', {node.state})
      && best'[node.state] == node.pathCost
      && (forall b :: b in done + [a] ==> Relaxed(P, best', node.state, b))
      && Improves(U, best', best)
  {
    var s := node.state;
    var t := P.result(s, a).value;
    var child := Child(P, node, a, t);
    var c := child.pathCost;
    var best' := best[t := c];
    var frontier' := frontier + [child];
    AddNonNegative(node.pathCost, P.stepCost(s, a, t));
    assert t != s;
    ValidChild(P, node, a);
    UpdateImproves(U, best, t, c);
    QueueLowered(P, U, frontier, best, child, s, best');
    forall b | b in done + [a]
      ensures Relaxed(P, best', s, b)
    {
      if b != a {
        assert Relaxed(P, best, s, b);
      }
    }
  }

  /** With every action of the expanded state relaxed, it is accounted for. */
  lemma Settle<S, A>(P: Problem<S, A>, U: set<S>, node: Node<S, A>, frontier: seq<Node<S, A>>, best: map<S, Cost>)
    requires BestCosts(P, U, frontier, best, {node.state}) && node.state in best && !P.isGoal(node.state)
    requires forall a :: a in P.actions(node.state) ==> Relaxed(P, best, node.state, a)
    ensures BestCosts(P, U, frontier, best, {})
  {
    assert Accounted(P, frontier, best, node.state);
  }

  /** The child loop of `uniformCostSearch` and `aStarSearch` from action
      `j` of `acts` on, in their order: the child of an action is queued,
      and its state's best cost set to the child's cost, exactly when the
      state has no best cost yet or the child's cost is strictly lower. */
  function RelaxFrom<S(==), A>(P: Problem<S, A>, node: Node<S, A>, acts: seq<A>, j: nat,
                              frontier: seq<Node<S, A>>, best: map<S, Cost>): (seq<Node<S, A>>, map<S, Cost>)
    requires j <= |acts| && forall a :: a in acts ==> P.result(node.state, a).Some?
    decreases |acts| - j
  {
    if j == |acts| then (frontier, best)
    else
      var t := P.result(node.state, acts[j]).value;
      var child := Child(P, node, acts[j], t);
      if t !in best || Lt(child.pathCost, best[t]) then
        RelaxFrom(P, node, acts, j + 1, frontier + [child], best[t := child.pathCost])
      else
        RelaxFrom(P, node, acts, j + 1, frontier, best)
  }

  /** The states of the nodes of `f` from index `from` on. */
  ghost function StatesFrom<S, A>(f: seq<Node<S, A>>, from: nat): set<S> {
    set k | from <= k < |f| :: f[k].state
  }

  /** The child loop keeps the frontier's nodes and appends children of
      `node` only, each by one of the actions still to be tried. */
  lemma {:induction false} RelaxFrontier<S, A>(P: Problem<S, A>, node: Node<S, A>, acts: seq<A>, j: nat,
                                              frontier: seq<Node<S, A>>, best: map<S, Cost>)
    requires j <= |acts| && forall a :: a in acts ==> P.result(node.state, a).Some?
    ensures var f' := RelaxFrom(P, node, acts, j, frontier, best).0;
      && |frontier| <= |f'| && f'[..|frontier|] == frontier
      && forall k :: |frontier| <= k < |f'| ==>
           exists i :: j <= i < |acts| && f'[k] == Child(P, node, acts[i], P.result(node.state, acts[i]).value)
    decreases |acts| - j
  {
    if j < |acts| {
      var t := P.result(node.state, acts[j]).value;
      var child := Child(P, node, acts[j], t);
      var f1, b1 := frontier, best;
      if t !in best || Lt(child.pathCost, best[t]) {
        f1, b1 := frontier + [child], best[t := child.pathCost];
      }
      RelaxFrontier(P, node, acts, j + 1, f1, b1);
      var f' := RelaxFrom(P, node, acts, j + 1, f1, b1).0;
      assert f'[..|f1|] == f1;
      if f1 != frontier {
        assert f'[|frontier|] == f1[|frontier|];
      }
    }
  }

  /** The best costs only go down, gain exactly the states of the queued
      children, and keep every entry whose state was not queued. */
  lemma {:induction false} RelaxBest<S, A>(P: Problem<S, A>, node: Node<S, A>, acts: seq<A>, j: nat,
                                          frontier: seq<Node<S, A>>, best: map<S, Cost>)
    requires j <= |acts| && forall a :: a in acts ==> P.result(node.state, a).Some?
    ensures var (f', b') := RelaxFrom(P, node, acts, j, frontier, best);
      && b'.Keys == best.Keys + StatesFrom(f', |frontier|)
      && (forall s :: s in best ==> Le(b'[s], best[s]))
      && (forall s :: s in best && s !in StatesFrom(f', |frontier|) ==> b'[s] == best[s])
    decreases |acts| - j
  {
    if j < |acts| {
      var t := P.result(node.state, acts[j]).value;
      var child := Child(P, node, acts[j], t);
      if t !in best || Lt(child.pathCost, best[t]) {
        var f1, b1 := frontier + [child], best[t := child.pathCost];
        RelaxFrontier(P, node, acts, j + 1, f1, b1);
        RelaxBest(P, node, acts, j + 1, f1, b1);
        var f' := RelaxFrom(P, node, acts, j + 1, f1, b1).0;
        assert f'[..|f1|] == f1;
        assert f'[|frontier|].state == t;
        assert StatesFrom(f', |frontier|) == {t} + StatesFrom(f', |f1|);
      } else {
        RelaxBest(P, node, acts, j + 1, frontier, best);
      }
    }
  }

  /** Each queued child is strictly cheaper than the best cost its state
      had before the loop. */
  lemma {:induction false} RelaxCheaper<S, A>(P: Problem<S, A>, node: Node<S, A>, acts: seq<A>, j: nat,
                                             frontier: seq<Node<S, A>>, best: map<S, Cost>)
    requires j <= |acts| && forall a :: a in acts ==> P.result(node.state, a).Some?
    ensures var f' := RelaxFrom(P, node, acts, j, frontier, best).0;
      forall k :: |frontier| <= k < |f'| && f'[k].state in best ==> Lt(f'[k].pathCost, best[f'[k].state])
    decreases |acts| - j
  {
    if j < |acts| {
      var t := P.result(node.state, acts[j]).value;
      var child := Child(P, node, acts[j], t);
      if t !in best || Lt(child.pathCost, best[t]) {
        var f1, b1 := frontier + [child], best[t := child.pathCost];
        assert RelaxFrom(P, node, acts, j, frontier, best) == RelaxFrom(P, node, acts, j + 1, f1, b1);
        RelaxCheaper(P, node, acts, j + 1, f1, b1);
        RelaxFrontier(P, node, acts, j + 1, f1, b1);
        var f' := RelaxFrom(P, node, acts, j + 1, f1, b1).0;
        assert f'[..|f1|] == f1;
        assert f'[|frontier|] == child;
      } else {
        assert RelaxFrom(P, node, acts, j, frontier, best) == RelaxFrom(P, node, acts, j + 1, frontier, best);
        RelaxCheaper(P, node, acts, j + 1, frontier, best);
        assert var f' := RelaxFrom(P, node, acts, j + 1, frontier, best).0;
          forall k :: |frontier| <= k < |f'| && f'[k].state in best ==> Lt(f'[k].pathCost, best[f'[k].state]);
      }
    }
  }

  /** Each queued child costs at least its state's final best cost. */
  lemma {:induction false} RelaxAtLeast<S, A>(P: Problem<S, A>, node: Node<S, A>, acts: seq<A>, j: nat,
                                             frontier: seq<Node<S, A>>, best: map<S, Cost>)
    requires j <= |acts| && forall a :: a in acts ==> P.result(node.state, a).Some?
    ensures var (f', b') := RelaxFrom(P, node, acts, j, frontier, best);
      forall k :: |frontier| <= k < |f'| ==> f'[k].state in b' && Le(b'[f'[k].state], f'[k].pathCost)
    decreases |acts| - j
  {
    if j < |acts| {
      var t := P.result(node.state, acts[j]).value;
      var child := Child(P, node, acts[j], t);
      if t !in best || Lt(child.pathCost, best[t]) {
        var f1, b1 := frontier + [child], best[t := child.pathCost];
        assert RelaxFrom(P, node, acts, j, frontier, best) == RelaxFrom(P, node, acts, j + 1, f1, b1);
        RelaxFrontier(P, node, acts, j + 1, f1, b1);
        RelaxBest(P, node, acts, j + 1, f1, b1);
        RelaxAtLeast(P, node, acts, j + 1, f1, b1);
        var r := RelaxFrom(P, node, acts, j + 1, f1, b1);
        var f', b' := r.0, r.1;
        assert f'[..|f1|] == f1;
        assert f'[|frontier|] == child;
        assert t in b' && Le(b'[t], b1[t]);
      } else {
        assert RelaxFrom(P, node, acts, j, frontier, best) == RelaxFrom(P, node, acts, j + 1, frontier, best);
        RelaxAtLeast(P, node, acts, j + 1, frontier, best);
        assert var (f', b') := RelaxFrom(P, node, acts, j + 1, frontier, best);
          forall k :: |frontier| <= k < |f'| ==> f'[k].state in b' && Le(b'[f'[k].state], f'[k].pathCost);
      }
    }
  }

  /** Each queued state ends at the cost of one of its queued children. */
  lemma {:induction false} RelaxAttained<S, A>(P: Problem<S, A>, node: Node<S, A>, acts: seq<A>, j: nat,
                                              frontier: seq<Node<S, A>>, best: map<S, Cost>)
    requires j <= |acts| && forall a :: a in acts ==> P.result(node.state, a).Some?
    ensures var (f', b') := RelaxFrom(P, node, acts, j, frontier, best);
      forall s :: s in StatesFrom(f', |frontier|) ==>
        s in b' && exists k :: |frontier| <= k < |f'| && f'[k].state == s && f'[k].pathCost == b'[s]
    decreases |acts| - j
  {
    if j < |acts| {
      var t := P.result(node.state, acts[j]).value;
      var child := Child(P, node, acts[j], t);
      if t !in best || Lt(child.pathCost, best[t]) {
        var f1, b1 := frontier + [child], best[t := child.pathCost];
        assert RelaxFrom(P, node, acts, j, frontier, best) == RelaxFrom(P, node, acts, j + 1, f1, b1);
        RelaxFrontier(P, node, acts, j + 1, f1, b1);
        RelaxBest(P, node, acts, j + 1, f1, b1);
        RelaxAttained(P, node, acts, j + 1, f1, b1);
        var r := RelaxFrom(P, node, acts, j + 1, f1, b1);
        var f', b' := r.0, r.1;
        assert f'[..|f1|] == f1;
        assert f'[|frontier|] == child;
        assert StatesFrom(f', |frontier|) == {t} + StatesFrom(f', |f1|);
        forall s | s in StatesFrom(f', |frontier|)
          ensures s in b' && exists k :: |frontier| <= k < |f'| && f'[k].state == s && f'[k].pathCost == b'[s]
        {
          if s !in StatesFrom(f', |f1|) {
            assert f'[|frontier|].state == s && f'[|frontier|].pathCost == b'[s];
          }
        }
      } else {
        assert RelaxFrom(P, node, acts, j, frontier, best) == RelaxFrom(P, node, acts, j + 1, frontier, best);
        RelaxAttained(P, node, acts, j + 1, frontier, best);
        assert var (f', b') := RelaxFrom(P, node, acts, j + 1, frontier, best);
          forall s :: s in StatesFrom(f', |frontier|) ==>
            s in b' && exists k :: |frontier| <= k < |f'| && f'[k].state == s && f'[k].pathCost == b'[s];
      }
    }
  }

  /** Every child of an action still to be tried ends at or above its
      state's best cost: a child that was not queued was no improvement. */
  lemma {:induction false} RelaxCovers<S, A>(P: Problem<S, A>, node: Node<S, A>, acts: seq<A>, j: nat,
                                            frontier: seq<Node<S, A>>, best: map<S, Cost>)
    requires j <= |acts| && forall a :: a in acts ==> P.result(node.state, a).Some?
    ensures var b' := RelaxFrom(P, node, acts, j, frontier, best).1;
      forall i :: j <= i < |acts| ==>
        var t := P.result(node.state, acts[i]).value;
        t in b' && Le(b'[t], Child(P, node, acts[i], t).pathCost)
    decreases |acts| - j
  {
    if j < |acts| {
      var t := P.result(node.state, acts[j]).value;
      var child := Child(P, node, acts[j], t);
      var f1, b1 := frontier, best;
      if t !in best || Lt(child.pathCost, best[t]) {
        f1, b1 := frontier + [child], best[t := child.pathCost];
      }
      RelaxBest(P, node, acts, j + 1, f1, b1);
      RelaxCovers(P, node, acts, j + 1, f1, b1);
    }
  }

  /** The expansion loop of `uniformCostSearch` and `aStarSearch`: a
      child is queued, and its state's best cost lowered, only when the
      new cost is a strict improvement. */
  method Relax<S(==), A(==)>(P: Problem<S, A>, ghost U: set<S>, node: Node<S, A>,
                              frontier: seq<Node<S, A>>, best: map<S, Cost>)
    returns (frontier': seq<Node<S, A>>, best': map<S, Cost>)
    requires Closed(P, U) && NonNegativeSteps(P, U)
    requires ValidNode(P, node) && node.state in U && !P.isGoal(node.state)
    requires BestCosts(P, U, frontier, best, {node.state})
    requires node.state in best && best[node.state] == node.pathCost
    ensures (frontier', best') == RelaxFrom(P, node, P.actions(node.state), 0, frontier, best)
    ensures BestCosts(P, U, frontier', best', {})
    ensures best' == best ==> frontier' == frontier
    ensures best' == best || Improves(U, best', best)
  {
    var acts := P.actions(node.state);
    OfferedHaveResults(P, U, node.state);
    frontier', best' := frontier, best;
    var j := 0;
    while j < |acts|
      invariant 0 <= j <= |acts|
      invariant RelaxFrom(P, node, acts, j, frontier', best') == RelaxFrom(P, node, acts, 0, frontier, best)
      invariant BestCosts(P, U, frontier', best', {node.state})
      invariant node.state in best' && best'[node.state] == node.pathCost
      invariant forall a :: a in acts[..j] ==> Relaxed(P, best', node.state, a)
      invariant best' == best ==> frontier' == frontier
      invariant best' == best || Improves(U, best', best)
    {
      var a := acts[j];
      var childState := P.result(node.state, a).value;
      var newCost := Add(node.pathCost, P.stepCost(node.state, a, childState));
      assert acts[..j + 1] == acts[..j] + [a];
      if childState !in best' || Lt(newCost, best'[childState]) {
        var child := Child(P, node, a, childState);
        assert RelaxFrom(P, node, acts, j, frontier', best')
            == RelaxFrom(P, node, acts, j + 1, frontier' + [child], best'[childState := newCost]);
        RelaxStep(P, U, node, a, frontier', best', acts[..j]);
        if best' != best {
          ImprovesTrans(U, best'[childState := newCost], best', best);
        }
        best' := best'[childState := newCost];
        frontier' := frontier' + [child];
      } else {
        assert RelaxFrom(P, node, acts, j, frontier', best') == RelaxFrom(P, node, acts, j + 1, frontier', best');
        assert Relaxed(P, best', node.state, a);
      }
      j := j + 1;
    }
    assert acts[..|acts|] == acts;
    Settle(P, U, node, frontier', best');
  }

  // ------------------------------------------------------------------
  // Completeness and optimality

  /** The heuristic is non-negative and never above the cost of a plan
      from the state to a goal. */
  ghost predicate Admissible<S, A(!new)>(P: Problem<S, A>, h: S -> int, U: set<S>) {
    && (forall s :: s in U ==> 0 <= h(s))
    && (forall s, plan ::
          (s in U && Run(P, Arrival(s, Fin(0)), plan).Some? && P.isGoal(Run(P, Arrival(s, Fin(0)), plan).value.state)) ==>
          Le(Fin(h(s)), Run(P, Arrival(s, Fin(0)), plan).value.cost))
  }

  /** Replaying from a cost `c` costs `c` plus the replay from zero. */
  lemma {:induction false} RunShift<S, A>(P: Problem<S, A>, s: S, c: Cost, plan: seq<A>)
    ensures Run(P, Arrival(s, c), plan).Some? <==> Run(P, Arrival(s, Fin(0)), plan).Some?
    ensures Run(P, Arrival(s, c), plan).Some? ==>
      && Run(P, Arrival(s, c), plan).value.state == Run(P, Arrival(s, Fin(0)), plan).value.state
      && Run(P, Arrival(s, c), plan).value.cost == Add(c, Run(P, Arrival(s, Fin(0)), plan).value.cost)
    decreases |plan|
  {
    if plan != [] && Step(P, Arrival(s, c), plan[0]).Some? {
      var step := Step(P, Arrival(s, c), plan[0]).value;
      var step0 := Step(P, Arrival(s, Fin(0)), plan[0]).value;
      RunShift(P, step.state, step.cost, plan[1..]);
      RunShift(P, step0.state, step0.cost, plan[1..]);
    }
  }

  /** With non-negative steps, no replay from zero costs less than zero. */
  lemma {:induction false} RunNonNegative<S, A>(P: Problem<S, A>, U: set<S>, from: Arrival<S>, plan: seq<A>)
    requires Closed(P, U) && NonNegativeSteps(P, U) && from.state in U && NonNegative(from.cost)
    requires Run(P, from, plan).Some?
    ensures NonNegative(Run(P, from, plan).value.cost)
    decreases |plan|
  {
    if plan != [] {
      var next := Step(P, from, plan[0]).value;
      RunNonNegative(P, U, next, plan[1..]);
    }
  }

  /** The zero heuristic of uniform-cost search is admissible. */
  lemma ZeroAdmissible<S, A(!new)>(P: Problem<S, A>, U: set<S>)
    requires Closed(P, U) && NonNegativeSteps(P, U)
    ensures Admissible(P, s => 0, U)
  {
    forall s, plan | s in U && Run(P, Arrival(s, Fin(0)), plan).Some?
      ensures Le(Fin(0), Run(P, Arrival(s, Fin(0)), plan).value.cost)
    {
      RunNonNegative(P, U, Arrival(s, Fin(0)), plan);
    }
  }

  /** Along any plan from an arrival whose state's best cost is at most its
      cost, to a goal, some frontier node holds a state of the plan at no
      more than the cost of the prefix leading to it. */
  lemma {:induction false} Walk<S, A>(P: Problem<S, A>, U: set<S>, frontier: seq<Node<S, A>>, best: map<S, Cost>,
                                      from: Arrival<S>, plan: seq<A>)
    returns (n: Node<S, A>, m: nat)
    requires BestCosts(P, U, frontier, best, {})
    requires from.state in best && Le(best[from.state], from.cost)
    requires Run(P, from, plan).Some? && P.isGoal(Run(P, from, plan).value.state)
    ensures n in frontier && m <= |plan| && Run(P, from, plan[..m]).Some?
    ensures n.state == Run(P, from, plan[..m]).value.state
    ensures Le(n.pathCost, Run(P, from, plan[..m]).value.cost)
    decreases |plan|
  {
    var s := from.state;
    assert plan[..0] == [];
    assert Accounted(P, frontier, best, s);
    if x :| x in frontier && x.state == s && x.pathCost == best[s] {
      n, m := x, 0;
    } else {
      assert plan != [];
      var a := plan[0];
      var next := Step(P, from, a).value;
      assert Relaxed(P, best, s, a);
      AddMonotone(best[s], from.cost, P.stepCost(s, a, next.state));
      var m';
      n, m' := Walk(P, U, frontier, best, next, plan[1..]);
      m := m' + 1;
      assert plan[..m] == [a] + plan[1..][..m'];
      assert ([a] + plan[1..][..m'])[1..] == plan[1..][..m'];
    }
  }

  /** When the frontier is empty no goal is reachable. */
  lemma NoGoalWhenEmpty<S, A(!new)>(P: Problem<S, A>, U: set<S>, best: map<S, Cost>)
    requires BestCosts(P, U, [], best, {})
    ensures !GoalReachable(P)
  {
    forall plan | ReachesGoal(P, plan)
      ensures false
    {
      var n, m := Walk(P, U, [], best, Start(P), plan);
    }
  }

  /** The key of a node in the priority queue of A*: `g + h`. */
  function CostKeys<S, A>(h: S -> int, q: seq<Node<S, A>>): (keys: seq<Cost>)
    ensures |keys| == |q| && forall i :: 0 <= i < |q| ==> keys[i] == Add(q[i].pathCost, Fin(h(q[i].state)))
  {
    seq(|q|, i requires 0 <= i < |q| => Add(q[i].pathCost, Fin(h(q[i].state))))
  }

  /** A goal node of smallest `g + h` under an admissible heuristic costs
      no more than any plan to a goal. */
  lemma GoalOptimal<S, A(!new)>(P: Problem<S, A>, U: set<S>, h: S -> int, frontier: seq<Node<S, A>>, best: map<S, Cost>, k: int)
    requires Closed(P, U) && BestCosts(P, U, frontier, best, {})
    requires IsMinAt(CostKeys(h, frontier), k) && P.isGoal(frontier[k].state)
    requires Admissible(P, h, U)
    ensures forall plan :: ReachesGoal(P, plan) ==> Le(frontier[k].pathCost, Run(P, Start(P), plan).value.cost)
  {
    forall plan | ReachesGoal(P, plan)
      ensures Le(frontier[k].pathCost, Run(P, Start(P), plan).value.cost)
    {
      GoalBelowPlan(P, U, h, frontier, best, k, plan);
    }
  }

  /** The polled goal node costs no more than one given goal plan. */
  lemma GoalBelowPlan<S, A(!new)>(P: Problem<S, A>, U: set<S>, h: S -> int, frontier: seq<Node<S, A>>,
                                  best: map<S, Cost>, k: int, plan: seq<A>)
    requires Closed(P, U) && BestCosts(P, U, frontier, best, {})
    requires IsMinAt(CostKeys(h, frontier), k) && P.isGoal(frontier[k].state)
    requires Admissible(P, h, U) && ReachesGoal(P, plan)
    ensures Le(frontier[k].pathCost, Run(P, Start(P), plan).value.cost)
  {
    var g := frontier[k];
    assert g in frontier;
    assert Run(P, Arrival(g.state, Fin(0)), []) == Some(Arrival(g.state, Fin(0)));
    var n, m := Walk(P, U, frontier, best, Start(P), plan);
    var pre := Run(P, Start(P), plan[..m]).value;
    assert plan == plan[..m] + plan[m..];
    RunAppend(P, Start(P), plan[..m], plan[m..]);
    RunShift(P, pre.state, pre.cost, plan[m..]);
    var suffix := Run(P, Arrival(pre.state, Fin(0)), plan[m..]).value;
    assert Le(Fin(h(n.state)), suffix.cost);
    var i :| 0 <= i < |frontier| && frontier[i] == n;
    AddMonotone(n.pathCost, pre.cost, Fin(h(n.state)));
    assert Le(Add(pre.cost, Fin(h(n.state))), Add(pre.cost, suffix.cost));
  }

  // ------------------------------------------------------------------
  // The algorithms

  /** The loop shared by `uniformCostSearch` and `aStarSearch`: poll a
      node of smallest `g + h`, goal-test it, skip it when its cost exceeds
      the best cost recorded for its state, else expand it. */
  method CostGuided<S(==), A(==,!new)>(P: Problem<S, A>, ghost U: set<S>, h: S -> int) returns (r: SearchResult<A>)
    requires Closed(P, U) && P.initial in U && NonNegativeSteps(P, U)
    ensures Outcome(P, r)
    ensures NoPath(r) <==> !GoalReachable(P)
    ensures Admissible(P, h, U) ==> Optimal(P, r)
  {
    var root := Root(P);
    var frontier := [root];
    var best := map[root.state := Fin(0)];
    var nodesExpanded := 0;
    CostInit(P, U);
    while frontier != []
      invariant BestCosts(P, U, frontier, best, {})
      decreases |U - best.Keys|, InfCount(best), FinSum(best), |frontier|
    {
      var keys := CostKeys(h, frontier);
      MinExists(keys);
      var k :| 0 <= k < |keys| && IsMinAt(keys, k);
      var node := frontier[k];
      ghost var polled := frontier;
      frontier := frontier[..k] + frontier[k + 1..];

      if P.isGoal(node.state) {
        var path := ExtractPath(node);
        assert node in polled;
        GoalResult(P, node);
        if Admissible(P, h, U) {
          GoalOptimal(P, U, h, polled, best, k);
        }
        return SearchResult(path, node.pathCost, nodesExpanded);
      }

      if node.state in best && Lt(best[node.state], node.pathCost) {
        CostStale(P, U, polled, best, k);
        continue;
      }

      nodesExpanded := nodesExpanded + 1;
      CostExpandStart(P, U, polled, best, k);
      frontier, best := Relax(P, U, node, frontier, best);
    }
    r := NoPathResult(nodesExpanded);
    NoGoalWhenEmpty(P, U, best);
  }

  /** `uniformCostSearch`: with non-negative step costs it returns a
      cheapest plan, or the failure result when no goal is reachable. */
  method UniformCost<S(==), A(==,!new)>(P: Problem<S, A>, ghost U: set<S>) returns (r: SearchResult<A>)
    requires Closed(P, U) && P.initial in U && NonNegativeSteps(P, U)
    ensures Outcome(P, r)
    ensures NoPath(r) <==> !GoalReachable(P)
    ensures Optimal(P, r)
  {
    ZeroAdmissible(P, U);
    r := CostGuided(P, U, s => 0);
  }

  /** `aStarSearch`: optimal under an admissible heuristic. */
  method AStar<S(==), A(==,!new)>(P: Problem<S, A>, ghost U: set<S>, h: S -> int) returns (r: SearchResult<A>)
    requires Closed(P, U) && P.initial in U && NonNegativeSteps(P, U)
    ensures Outcome(P, r)
    ensures NoPath(r) <==> !GoalReachable(P)
    ensures Admissible(P, h, U) ==> Optimal(P, r)
  {
    r := CostGuided(P, U, h);
  }
}
