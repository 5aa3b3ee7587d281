/** The older breadth-first-only engine of src/code/GenericSearch.java. A
    state is marked explored when it is generated, so it enters the FIFO
    frontier at most once, and every polled non-goal node is expanded. */
module LegacySearch {
  import opened Wrappers
  import opened Costs
  import opened SearchModel
  import opened Frontier
  import opened Strategies

  /** The expansion loop: queue the child of every action whose state has
      not been generated yet, marking that state as it is queued. */
  method EnqueueUnseen<S(==), A>(P: Problem<S, A>, node: Node<S, A>, acts: seq<A>,
                                 frontier: seq<Node<S, A>>, explored: set<S>)
    returns (frontier': seq<Node<S, A>>, explored': set<S>)
    requires forall a :: a in acts ==> P.result(node.state, a).Some?
    ensures frontier' == frontier + FreshChildren(P, node, acts, explored)
    ensures explored' == explored + StatesOf(FreshChildren(P, node, acts, explored))
  {
    frontier', explored' := frontier, explored;
    var j := 0;
    while j < |acts|
      invariant 0 <= j <= |acts|
      invariant frontier' == frontier + FreshChildren(P, node, acts[..j], explored)
      invariant explored' == explored + StatesOf(FreshChildren(P, node, acts[..j], explored))
    {
      var a := acts[j];
      var childState := P.result(node.state, a).value;
      assert acts[..j + 1][..j] == acts[..j];
      ghost var prev := FreshChildren(P, node, acts[..j], explored);
      if childState !in explored' {
        var child := Child(P, node, a, childState);
        StatesOfAppend(prev, [child]);
        explored' := explored' + {childState};
        frontier' := frontier' + [child];
      }
      j := j + 1;
    }
    assert acts[..|acts|] == acts;
  }

  /** The head of a frontier of engine-built nodes is one too, and so is the rest. */
  lemma HeadFacts<S, A>(P: Problem<S, A>, U: set<S>, q: seq<Node<S, A>>)
    requires FrontierOk(P, U, q) && q != []
    ensures ValidNode(P, q[0]) && q[0].state in U && FrontierOk(P, U, q[1..])
  {
    assert q[0] in q;
    forall n | n in q[1..]
      ensures n in q
    {
      var i :| 0 <= i < |q[1..]| && q[1..][i] == n;
      assert q[i + 1] == n;
    }
  }

  /** The frontier facts after the fresh children `kids` of the polled head
      are queued behind the rest `q` of the frontier. */
  lemma QueueKeeps<S, A>(P: Problem<S, A>, U: set<S>, q: seq<Node<S, A>>, kids: seq<Node<S, A>>,
                         explored: set<S>, expanded: set<S>, s: S)
    requires FrontierOk(P, U, q) && DistinctStates(q) && FrontierOk(P, U, kids) && DistinctStates(kids)
    requires explored == expanded + {s} + StatesOf(q) && s !in StatesOf(q) && expanded !! StatesOf(q) && s !in expanded
    requires StatesOf(kids) !! explored
    ensures FrontierOk(P, U, q + kids) && DistinctStates(q + kids)
    ensures explored + StatesOf(kids) == (expanded + {s}) + StatesOf(q + kids)
    ensures (expanded + {s}) !! StatesOf(q + kids)
  {
    FrontierOkAppend(P, U, q, kids);
    DistinctAppend(q, kids);
  }

  /** Polling the head `q[0]` and queueing its fresh children `kids` keeps
      the frontier facts, and every successor of the head is then expanded,
      the head itself, or queued. */
  lemma PollFacts<S, A(!new)>(P: Problem<S, A>, U: set<S>, q: seq<Node<S, A>>, explored: set<S>,
                              expanded: set<S>, kids: seq<Node<S, A>>)
    requires Closed(P, U) && q != []
    requires FrontierOk(P, U, q) && DistinctStates(q)
    requires explored == expanded + StatesOf(q) && expanded !! StatesOf(q)
    requires kids == FreshChildren(P, q[0], P.actions(q[0].state), explored)
    ensures FrontierOk(P, U, q[1..] + kids) && DistinctStates(q[1..] + kids)
    ensures explored + StatesOf(kids) == (expanded + {q[0].state}) + StatesOf(q[1..] + kids)
    ensures (expanded + {q[0].state}) !! StatesOf(q[1..] + kids)
    ensures forall a :: a in P.actions(q[0].state) && P.result(q[0].state, a).Some? ==>
      P.result(q[0].state, a).value in (expanded + {q[0].state}) + StatesOf(q[1..] + kids)
  {
    var node := q[0];
    HeadFacts(P, U, q);
    StatesOfTail(q);
    OfferedHaveResults(P, U, node.state);
    FreshChildrenFacts(P, U, node, P.actions(node.state), explored);
    QueueKeeps(P, U, q[1..], kids, explored, expanded, node.state);
  }

  /** What expanding the head `q[0]` keeps: after polling it and queueing its
      fresh children `kids`, the frontier facts still hold and one more
      state is expanded. */
  lemma ExpandHeadFacts<S, A(!new)>(P: Problem<S, A>, U: set<S>, q: seq<Node<S, A>>, explored: set<S>,
                                    expanded: set<S>, count: nat, kids: seq<Node<S, A>>)
    requires Closed(P, U) && q != [] && !P.isGoal(q[0].state)
    requires FrontierOk(P, U, q) && DistinctStates(q)
    requires explored == expanded + StatesOf(q) && expanded !! StatesOf(q)
    requires ExpandedStates(P, U, expanded, count) && Complete(P, expanded, StatesOf(q))
    requires kids == FreshChildren(P, q[0], P.actions(q[0].state), explored)
    ensures FrontierOk(P, U, q[1..] + kids) && DistinctStates(q[1..] + kids)
    ensures explored + StatesOf(kids) == (expanded + {q[0].state}) + StatesOf(q[1..] + kids)
    ensures (expanded + {q[0].state}) !! StatesOf(q[1..] + kids)
    ensures ExpandedStates(P, U, expanded + {q[0].state}, count + 1)
    ensures Complete(P, expanded + {q[0].state}, StatesOf(q[1..] + kids))
    ensures |U - (expanded + {q[0].state})| < |U - expanded|
  {
    var node := q[0];
    HeadFacts(P, U, q);
    NodeReachable(P, node);
    PollFacts(P, U, q, explored, expanded, kids);
    assert StatesOf(q) <= StatesOf(q[1..] + kids) + {node.state};
    ExpandStep(P, U, expanded, count, StatesOf(q), StatesOf(q[1..] + kids), node.state);
  }

  /** One turn of the loop on a frontier whose head is not a goal: poll the
      head, expand it, and queue its children whose states were not generated. */
  method ExpandHead<S(==), A(==,!new)>(P: Problem<S, A>, ghost U: set<S>, q: seq<Node<S, A>>, explored: set<S>,
                                       ghost expanded: set<S>, count: nat)
    returns (frontier': seq<Node<S, A>>, explored': set<S>, ghost expanded': set<S>, count': nat)
    requires Closed(P, U) && q != [] && !P.isGoal(q[0].state)
    requires FrontierOk(P, U, q) && DistinctStates(q)
    requires explored == expanded + StatesOf(q) && expanded !! StatesOf(q)
    requires ExpandedStates(P, U, expanded, count) && Complete(P, expanded, StatesOf(q))
    requires LevelOrder(P, expanded, q)
    ensures frontier' == q[1..] + FreshChildren(P, q[0], P.actions(q[0].state), explored)
    ensures explored' == explored + StatesOf(FreshChildren(P, q[0], P.actions(q[0].state), explored))
    ensures expanded' == expanded + {q[0].state} && count' == count + 1
    ensures FrontierOk(P, U, frontier') && DistinctStates(frontier')
    ensures explored' == expanded' + StatesOf(frontier') && expanded' !! StatesOf(frontier')
    ensures ExpandedStates(P, U, expanded', count') && Complete(P, expanded', StatesOf(frontier'))
    ensures LevelOrder(P, expanded', frontier')
    ensures |U - expanded'| < |U - expanded|
  {
    var node := q[0];
    var acts := P.actions(node.state);
    OfferedHaveResults(P, U, node.state);
    ghost var kids := FreshChildren(P, node, acts, explored);
    ExpandHeadFacts(P, U, q, explored, expanded, count, kids);
    FreshChildrenDepth(P, node, acts, explored);
    LevelStep(P, expanded, q, kids);
    expanded' := expanded + {node.state};
    count' := count + 1;
    frontier', explored' := EnqueueUnseen(P, node, acts, q[1..], explored);
  }

  /** `breadthFirstSearch` of the older engine: `explored` holds the expanded
      states and the queued ones, which are distinct and not expanded. */
  method BreadthFirst<S(==), A(==,!new)>(P: Problem<S, A>, ghost U: set<S>) returns (r: SearchResult<A>)
    requires Closed(P, U) && P.initial in U
    ensures Outcome(P, r)
    ensures NoPath(r) <==> !GoalReachable(P)
    ensures r.nodesExpanded <= |ReachableStates(P, U)|
    ensures NoPath(r) ==> r.nodesExpanded == |ReachableStates(P, U)|
    ensures !NoPath(r) ==> forall plan :: ReachesGoal(P, plan) ==> |r.actions| <= |plan|
  {
    var root := Root(P);
    var frontier := [root];
    var explored := {root.state};
    ghost var expanded: set<S> := {};
    var nodesExpanded := 0;
    StatesOfAppend([], [root]);
    CompleteInit(P);
    LevelInit(P);
    while frontier != [] && !P.isGoal(frontier[0].state)
      invariant FrontierOk(P, U, frontier) && DistinctStates(frontier)
      invariant explored == expanded + StatesOf(frontier) && expanded !! StatesOf(frontier)
      invariant ExpandedStates(P, U, expanded, nodesExpanded)
      invariant Complete(P, expanded, StatesOf(frontier))
      invariant LevelOrder(P, expanded, frontier)
      decreases |U - expanded|
    {
      frontier, explored, expanded, nodesExpanded := ExpandHead(P, U, frontier, explored, expanded, nodesExpanded);
    }
    if frontier == [] {
      r := NoPathResult(nodesExpanded);
      ExhaustedSearch(P, U, expanded, nodesExpanded);
    } else {
      var node := frontier[0];
      HeadFacts(P, U, frontier);
      var path := ExtractPath(node);
      GoalResult(P, node);
      ExpandedBound(P, U, expanded);
      LevelGoal(P, expanded, frontier);
      r := SearchResult(path, node.pathCost, nodesExpanded);
    }
  }

  /** `search` of the older engine: only BF is implemented; any other code
      fails with `UnsupportedOperationException`. */
  method Search<S(==), A(==,!new)>(P: Problem<S, A>, ghost U: set<S>, x: Strategy) returns (r: Result<SearchResult<A>>)
    requires Closed(P, U) && P.initial in U
    ensures r.Success? <==> x == BF
    ensures r.Success? ==> Outcome(P, r.value) && (NoPath(r.value) <==> !GoalReachable(P))
    ensures r.Success? && !NoPath(r.value) ==> forall plan :: ReachesGoal(P, plan) ==> |r.value.actions| <= |plan|
  {
    if x == BF {
      var result := BreadthFirst(P, U);
      r := Success(result);
    } else {
      r := Failure("Strategy not implemented yet: " + Name(x));
    }
  }
}
