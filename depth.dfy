/** Depth-limited and iterative-deepening search of
    backend/src/code/GenericSearch.java. Depth-limited search remembers
    expanded (state, depth) pairs rather than states, and pushes every
    child, in reverse action order, onto a stack. */
module DepthSearch {
  import opened Wrappers
  import opened Costs
  import opened SearchModel
  import opened Frontier

  /** The ceiling of iterative deepening: the limit after which it stops. */
  const MaxDepthLimit: nat := 1000

  /** The (state, depth) pairs of a frontier. */
  ghost function KeysOf<S, A>(q: seq<Node<S, A>>): set<(S, nat)> {
    set n | n in q :: (n.state, n.depth)
  }

  /** The pairs depth-limited search may expand: states of `U` above the limit. */
  ghost function DepthKeys<S>(U: set<S>, limit: nat): set<(S, nat)> {
    set s, d: nat | s in U && d < limit :: (s, d)
  }

  lemma KeysOfAppend<S, A>(p: seq<Node<S, A>>, q: seq<Node<S, A>>)
    ensures KeysOf(p + q) == KeysOf(p) + KeysOf(q)
  {
    assert forall n :: n in p + q <==> n in p || n in q;
  }

  /** Popping the top of the stack removes exactly its pair, if no other node holds it. */
  lemma KeysOfRemoveLast<S, A>(P: Problem<S, A>, U: set<S>, limit: nat, q: seq<Node<S, A>>)
    requires q != [] && LimitedFrontier(P, U, limit, q)
    ensures KeysOf(q) == KeysOf(q[..|q| - 1]) + {(q[|q| - 1].state, q[|q| - 1].depth)}
    ensures LimitedFrontier(P, U, limit, q[..|q| - 1])
    ensures ValidNode(P, q[|q| - 1]) && q[|q| - 1].state in U && q[|q| - 1].depth <= limit
  {
    assert forall n :: n in q[..|q| - 1] ==> n in q;
    assert q == q[..|q| - 1] + [q[|q| - 1]];
    KeysOfAppend(q[..|q| - 1], [q[|q| - 1]]);
  }

  /** Every result of an expansion appears one level deeper among the children. */
  lemma {:induction false} ChildKeys<S, A>(P: Problem<S, A>, n: Node<S, A>, acts: seq<A>)
    requires forall a :: a in acts ==> P.result(n.state, a).Some?
    ensures forall a :: a in acts ==> (P.result(n.state, a).value, n.depth + 1) in KeysOf(Children(P, n, acts, {}))
    decreases |acts|
  {
    if acts != [] {
      ChildKeys(P, n, acts[1..]);
      var c := Child(P, n, acts[0], P.result(n.state, acts[0]).value);
      KeysOfAppend([c], Children(P, n, acts[1..], {}));
      assert c in [c];
      assert forall a :: a in acts ==> a == acts[0] || a in acts[1..];
    }
  }

  lemma ReversedKeys<S, A>(c: seq<Node<S, A>>)
    ensures KeysOf(Reverse(c)) == KeysOf(c)
    ensures forall n :: n in Reverse(c) <==> n in c
  {
    ReverseMembers(c);
    forall k | k in KeysOf(c)
      ensures k in KeysOf(Reverse(c))
    {
      var n :| n in c && (n.state, n.depth) == k;
      assert n in Reverse(c);
    }
    forall k | k in KeysOf(Reverse(c))
      ensures k in KeysOf(c)
    {
      var n :| n in Reverse(c) && (n.state, n.depth) == k;
      assert n in c;
    }
  }

  /** The frontier: valid nodes of `U` no deeper than the limit. */
  ghost predicate LimitedFrontier<S, A>(P: Problem<S, A>, U: set<S>, limit: nat, q: seq<Node<S, A>>) {
    FrontierOk(P, U, q) && forall n :: n in q ==> n.depth <= limit
  }

  lemma LimitedAppend<S, A>(P: Problem<S, A>, U: set<S>, limit: nat, p: seq<Node<S, A>>, q: seq<Node<S, A>>)
    requires LimitedFrontier(P, U, limit, p) && LimitedFrontier(P, U, limit, q)
    ensures LimitedFrontier(P, U, limit, p + q)
  {
    assert forall n :: n in p + q <==> n in p || n in q;
  }

  /** The reversed children of a node above the limit are within it. */
  lemma LimitedChildren<S, A>(P: Problem<S, A>, U: set<S>, limit: nat, n: Node<S, A>, acts: seq<A>)
    requires Closed(P, U) && ValidNode(P, n) && n.state in U && n.depth < limit
    requires forall a :: a in acts ==> a in P.actions(n.state)
    requires forall a :: a in acts ==> P.result(n.state, a).Some?
    ensures LimitedFrontier(P, U, limit, Reverse(Children(P, n, acts, {})))
    ensures KeysOf(Reverse(Children(P, n, acts, {}))) == KeysOf(Children(P, n, acts, {}))
  {
    ChildrenFacts(P, U, n, acts, {});
    ReversedKeys(Children(P, n, acts, {}));
  }

  /** What depth-limited search knows about the pairs it has popped
      (`tested`), expanded (`explored`) and still holds (`F`): popped pairs
      are not goals, popped pairs above the limit were expanded, and each
      successor of an expanded pair was popped or is on the frontier. */
  ghost predicate DepthComplete<S, A>(P: Problem<S, A>, limit: nat, explored: set<(S, nat)>, tested: set<(S, nat)>, F: set<(S, nat)>) {
    && explored <= tested
    && (forall k :: k in tested ==> !P.isGoal(k.0) && (k.1 < limit ==> k in explored))
    && (forall k, a :: k in explored && a in P.actions(k.0) && P.result(k.0, a).Some? ==>
          (P.result(k.0, a).value, k.1 + 1) in tested + F)
    && (P.initial, 0) in tested + F
  }

  /** A popped non-goal pair that is not expanded: cut off or seen before. */
  lemma DepthSkip<S, A>(P: Problem<S, A>, limit: nat, explored: set<(S, nat)>, tested: set<(S, nat)>,
                        F: set<(S, nat)>, F': set<(S, nat)>, k: (S, nat))
    requires DepthComplete(P, limit, explored, tested, F)
    requires F <= F' + {k} && !P.isGoal(k.0) && (k.1 < limit ==> k in explored)
    ensures DepthComplete(P, limit, explored, tested + {k}, F')
  {
    assert tested + F <= (tested + {k}) + F';
  }

  /** Expanding a popped pair `(s, d)` above the limit, whose successors
      are pushed one level deeper (their pairs are `C`). */
  lemma DepthExpand<S, A>(P: Problem<S, A>, U: set<S>, limit: nat, explored: set<(S, nat)>, tested: set<(S, nat)>,
                          F: set<(S, nat)>, Fpop: set<(S, nat)>, C: set<(S, nat)>, s: S, d: nat)
    requires DepthComplete(P, limit, explored, tested, F) && explored <= DepthKeys(U, limit)
    requires F <= Fpop + {(s, d)} && !P.isGoal(s) && d < limit && s in U && (s, d) !in explored
    requires forall a :: a in P.actions(s) ==> P.result(s, a).Some? && (P.result(s, a).value, d + 1) in C
    ensures DepthComplete(P, limit, explored + {(s, d)}, tested + {(s, d)}, Fpop + C)
    ensures explored + {(s, d)} <= DepthKeys(U, limit)
    ensures |DepthKeys(U, limit) - (explored + {(s, d)})| < |DepthKeys(U, limit) - explored|
  {
    assert (s, d) in DepthKeys(U, limit);
    GrowShrinksRemainder(DepthKeys(U, limit), explored, (s, d));
    var E', T', F' := explored + {(s, d)}, tested + {(s, d)}, Fpop + C;
    assert tested + F <= T' + F';
    forall k, a | k in E' && a in P.actions(k.0) && P.result(k.0, a).Some?
      ensures (P.result(k.0, a).value, k.1 + 1) in T' + F'
    {
      if k != (s, d) {
        assert (P.result(k.0, a).value, k.1 + 1) in tested + F;
      }
    }
  }

  /** With the frontier exhausted, every pair reached by a plan within the
      limit was popped; none of them is a goal. */
  lemma {:induction false} DepthExhausted<S, A>(P: Problem<S, A>, limit: nat, explored: set<(S, nat)>, tested: set<(S, nat)>, plan: seq<A>)
    requires DepthComplete(P, limit, explored, tested, {})
    requires |plan| <= limit && Run(P, Start(P), plan).Some?
    ensures (Run(P, Start(P), plan).value.state, |plan|) in tested
    decreases |plan|
  {
    assert tested + {} == tested;
    if plan != [] {
      var init := plan[..|plan| - 1];
      var a := plan[|plan| - 1];
      assert plan == init + [a];
      RunSnoc(P, Start(P), init, a);
      DepthExhausted(P, limit, explored, tested, init);
    }
  }

  lemma NoGoalWithin<S, A(!new)>(P: Problem<S, A>, limit: nat, explored: set<(S, nat)>, tested: set<(S, nat)>)
    requires DepthComplete(P, limit, explored, tested, {})
    ensures !GoalReachableWithin(P, limit)
  {
    forall plan | |plan| <= limit && ReachesGoal(P, plan)
      ensures false
    {
      DepthExhausted(P, limit, explored, tested, plan);
    }
  }

  /** The expansion step of `depthLimitedSearch`: mark the popped pair
      expanded, count it, and push every child in reverse action order. */
  method ExpandLimited<S(==), A(==)>(P: Problem<S, A>, ghost U: set<S>, limit: nat, node: Node<S, A>,
                                      frontier: seq<Node<S, A>>, explored: set<(S, nat)>, ghost tested: set<(S, nat)>, count: nat)
    returns (frontier': seq<Node<S, A>>, explored': set<(S, nat)>, ghost tested': set<(S, nat)>, count': nat)
    requires Closed(P, U) && LimitedFrontier(P, U, limit, frontier)
    requires ValidNode(P, node) && node.state in U && node.depth < limit && !P.isGoal(node.state)
    requires (node.state, node.depth) !in explored && explored <= DepthKeys(U, limit) && count == |explored|
    requires DepthComplete(P, limit, explored, tested, KeysOf(frontier) + {(node.state, node.depth)})
    ensures frontier' == frontier + Reverse(Children(P, node, P.actions(node.state), {}))
    ensures explored' == explored + {(node.state, node.depth)} && count' == count + 1
    ensures LimitedFrontier(P, U, limit, frontier')
    ensures explored' <= DepthKeys(U, limit) && count' == |explored'|
    ensures DepthComplete(P, limit, explored', tested', KeysOf(frontier'))
    ensures |DepthKeys(U, limit) - explored'| < |DepthKeys(U, limit) - explored|
  {
    var acts := P.actions(node.state);
    OfferedHaveResults(P, U, node.state);
    LimitedChildren(P, U, limit, node, acts);
    ChildKeys(P, node, acts);
    ghost var kids := Children(P, node, acts, {});
    LimitedAppend(P, U, limit, frontier, Reverse(kids));
    KeysOfAppend(frontier, Reverse(kids));
    DepthExpand(P, U, limit, explored, tested, KeysOf(frontier) + {(node.state, node.depth)}, KeysOf(frontier), KeysOf(kids), node.state, node.depth);
    explored' := explored + {(node.state, node.depth)};
    tested' := tested + {(node.state, node.depth)};
    count' := count + 1;
    frontier' := PushChildrenReversed(P, node, acts, {}, frontier);
  }

  /** `depthLimitedSearch`: the goal test comes before the depth cutoff;
      a node at depth `limit` or deeper is never expanded, and each
      (state, depth) pair is expanded at most once. */
  method DepthLimited<S(==), A(==,!new)>(P: Problem<S, A>, ghost U: set<S>, limit: nat) returns (r: SearchResult<A>)
    requires Closed(P, U) && P.initial in U
    ensures Outcome(P, r)
    ensures NoPath(r) <==> !GoalReachableWithin(P, limit)
    ensures !NoPath(r) ==> |r.actions| <= limit
    ensures r.nodesExpanded <= |DepthKeys(U, limit)|
  {
    var frontier := [Root(P)];
    var explored: set<(S, nat)> := {};
    ghost var tested: set<(S, nat)> := {};
    var nodesExpanded := 0;
    KeysOfAppend([], [Root(P)]);
    while frontier != []
      invariant LimitedFrontier(P, U, limit, frontier)
      invariant explored <= DepthKeys(U, limit) && nodesExpanded == |explored|
      invariant DepthComplete(P, limit, explored, tested, KeysOf(frontier))
      decreases |DepthKeys(U, limit) - explored|, |frontier|
    {
      var node := frontier[|frontier| - 1];
      KeysOfRemoveLast(P, U, limit, frontier);
      frontier := frontier[..|frontier| - 1];

      if P.isGoal(node.state) {
        var path := ExtractPath(node);
        GoalResult(P, node);
        NodePlan(P, node);
        assert |path| <= limit && ReachesGoal(P, path);
        SubsetCard(explored, DepthKeys(U, limit));
        return SearchResult(path, node.pathCost, nodesExpanded);
      }

      if node.depth >= limit {
        DepthSkip(P, limit, explored, tested, KeysOf(frontier) + {(node.state, node.depth)}, KeysOf(frontier), (node.state, node.depth));
        tested := tested + {(node.state, node.depth)};
        continue;
      }

      if (node.state, node.depth) in explored {
        DepthSkip(P, limit, explored, tested, KeysOf(frontier) + {(node.state, node.depth)}, KeysOf(frontier), (node.state, node.depth));
        tested := tested + {(node.state, node.depth)};
        continue;
      }

      frontier, explored, tested, nodesExpanded := ExpandLimited(P, U, limit, node, frontier, explored, tested, nodesExpanded);
    }
    r := NoPathResult(nodesExpanded);
    NoGoalWithin(P, limit, explored, tested);
    SubsetCard(explored, DepthKeys(U, limit));
  }

  /** `res` is what depth-limited search with limit `limit` may return. */
  ghost predicate LimitedOutcome<S, A(!new)>(P: Problem<S, A>, U: set<S>, limit: nat, res: SearchResult<A>) {
    && Outcome(P, res)
    && (NoPath(res) <==> !GoalReachableWithin(P, limit))
    && (!NoPath(res) ==> |res.actions| <= limit)
    && res.nodesExpanded <= |DepthKeys(U, limit)|
  }

  /** The expansions of a sequence of searches, added up. */
  function TotalExpanded<A>(runs: seq<SearchResult<A>>): nat {
    if runs == [] then 0 else TotalExpanded(runs[..|runs| - 1]) + runs[|runs| - 1].nodesExpanded
  }

  /** One more search adds its expansions to the total. */
  lemma RunsSnoc<A>(runs: seq<SearchResult<A>>, res: SearchResult<A>)
    ensures TotalExpanded(runs + [res]) == TotalExpanded(runs) + res.nodesExpanded
    ensures forall i :: 0 <= i < |runs| ==> (runs + [res])[i] == runs[i]
  {
    assert (runs + [res])[..|runs|] == runs;
  }

  /** `iterativeDeepeningSearch`: depth-limited search with limits 0, 1,
      ..., 1001, summing the expansions, until a result of finite cost. A
      goal reached only through a step of infinite cost counts as failure.
      With finite step costs the first plan found is a shortest one. */
  method IterativeDeepening<S(==), A(==,!new)>(P: Problem<S, A>, ghost U: set<S>)
    returns (r: SearchResult<A>, ghost runs: seq<SearchResult<A>>)
    requires Closed(P, U) && P.initial in U
    ensures Outcome(P, r)
    ensures !NoPath(r) ==> r.cost.Fin? && |r.actions| <= MaxDepthLimit + 1
    ensures FiniteSteps(P, U) ==> (NoPath(r) <==> !GoalReachableWithin(P, MaxDepthLimit + 1))
    ensures FiniteSteps(P, U) && !NoPath(r) ==> forall plan :: ReachesGoal(P, plan) ==> |r.actions| <= |plan|
    ensures 1 <= |runs| <= MaxDepthLimit + 2
    ensures forall limit :: 0 <= limit < |runs| ==> LimitedOutcome(P, U, limit, runs[limit])
    ensures forall limit :: 0 <= limit < |runs| - 1 ==> runs[limit].cost == Inf
    ensures r.nodesExpanded == TotalExpanded(runs)
    ensures runs[|runs| - 1].cost != Inf ==> r.actions == runs[|runs| - 1].actions && r.cost == runs[|runs| - 1].cost
    ensures runs[|runs| - 1].cost == Inf ==> |runs| == MaxDepthLimit + 2 && NoPath(r)
  {
    var totalNodesExpanded: nat := 0;
    var depthLimit := 0;
    runs := [];
    while true
      invariant 0 <= depthLimit <= MaxDepthLimit + 1
      invariant FiniteSteps(P, U) && depthLimit > 0 ==> !GoalReachableWithin(P, depthLimit - 1)
      invariant |runs| == depthLimit
      invariant forall limit :: 0 <= limit < |runs| ==> LimitedOutcome(P, U, limit, runs[limit]) && runs[limit].cost == Inf
      invariant totalNodesExpanded == TotalExpanded(runs)
      decreases MaxDepthLimit + 1 - depthLimit
    {
      var result := DepthLimited(P, U, depthLimit);
      assert LimitedOutcome(P, U, depthLimit, result);
      RunsSnoc(runs, result);
      runs := runs + [result];
      totalNodesExpanded := totalNodesExpanded + result.nodesExpanded;

      if result.cost != Inf {
        r := SearchResult(result.actions, result.cost, totalNodesExpanded);
        if FiniteSteps(P, U) {
          assert forall plan :: ReachesGoal(P, plan) ==> |r.actions| <= |plan|;
        }
        return;
      }

      if FiniteSteps(P, U) && !NoPath(result) {
        RunFinite(P, U, Start(P), result.actions);
      }
      if depthLimit > MaxDepthLimit {
        break;
      }
      depthLimit := depthLimit + 1;
    }
    r := NoPathResult(totalNodesExpanded);
  }
}
