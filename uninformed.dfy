/** Breadth-first and depth-first search of backend/src/code/GenericSearch.java.
    Both keep a set of expanded states; the frontier is a `seq` used as a
    FIFO queue (head at index 0) or as a stack (top at the last index). */
module UninformedSearch {
  import opened Wrappers
  import opened Costs
  import opened SearchModel
  import opened Frontier

  /** The expansion loop of `breadthFirstSearch`: queue the child of each
      offered action whose state is neither expanded nor queued. */
  method QueueFreshChildren<S(==), A>(P: Problem<S, A>, node: Node<S, A>, acts: seq<A>, explored: set<S>,
                                      frontier: seq<Node<S, A>>, inFrontier: set<S>)
    returns (frontier': seq<Node<S, A>>, inFrontier': set<S>)
    requires forall a :: a in acts ==> P.result(node.state, a).Some?
    ensures frontier' == frontier + FreshChildren(P, node, acts, explored + inFrontier)
    ensures inFrontier' == inFrontier + StatesOf(FreshChildren(P, node, acts, explored + inFrontier))
  {
    ghost var skip := explored + inFrontier;
    frontier', inFrontier' := frontier, inFrontier;
    var j := 0;
    while j < |acts|
      invariant 0 <= j <= |acts|
      invariant frontier' == frontier + FreshChildren(P, node, acts[..j], skip)
      invariant inFrontier' == inFrontier + StatesOf(FreshChildren(P, node, acts[..j], skip))
    {
      var a := acts[j];
      var childState := P.result(node.state, a).value;
      assert acts[..j + 1][..j] == acts[..j];
      ghost var prev := FreshChildren(P, node, acts[..j], skip);
      if childState !in explored && childState !in inFrontier' {
        var child := Child(P, node, a, childState);
        StatesOfAppend(prev, [child]);
        frontier' := frontier' + [child];
        inFrontier' := inFrontier' + {childState};
      }
      j := j + 1;
    }
    assert acts[..|acts|] == acts;
  }

  /** The expansion step of `breadthFirstSearch` for a polled head `q[0]`
      that is neither a goal nor expanded: mark it expanded, count it, and
      queue its fresh children behind the rest of the queue. */
  method ExpandBreadthFirst<S(==), A(==,!new)>(P: Problem<S, A>, ghost U: set<S>, q: seq<Node<S, A>>,
                                               inFrontier: set<S>, explored: set<S>, count: nat)
    returns (frontier': seq<Node<S, A>>, inFrontier': set<S>, explored': set<S>, count': nat)
    requires Closed(P, U) && q != [] && !P.isGoal(q[0].state) && q[0].state !in explored
    requires FrontierOk(P, U, q) && DistinctStates(q) && inFrontier == StatesOf(q[1..])
    requires ExpandedStates(P, U, explored, count) && Complete(P, explored, StatesOf(q))
    requires LevelOrder(P, explored, q)
    ensures explored' == explored + {q[0].state} && count' == count + 1
    ensures frontier' == q[1..] + FreshChildren(P, q[0], P.actions(q[0].state), explored' + StatesOf(q[1..]))
    ensures FrontierOk(P, U, frontier') && DistinctStates(frontier') && inFrontier' == StatesOf(frontier')
    ensures ExpandedStates(P, U, explored', count') && Complete(P, explored', inFrontier')
    ensures LevelOrder(P, explored', frontier')
    ensures |U - explored'| < |U - explored|
  {
    var node := q[0];
    PollAt(P, U, q, 0);
    assert q[..0] + q[1..] == q[1..];
    StatesOfTail(q);
    var frontier := q[1..];
    NodeReachable(P, node);
    var acts := P.actions(node.state);
    OfferedHaveResults(P, U, node.state);
    FreshChildrenFacts(P, U, node, acts, explored + {node.state} + inFrontier);
    FreshChildrenDepth(P, node, acts, explored + {node.state} + inFrontier);
    ghost var kids := FreshChildren(P, node, acts, explored + {node.state} + inFrontier);
    DistinctAppend(frontier, kids);
    StatesOfAppend(frontier, kids);
    ExpandStep(P, U, explored, count, inFrontier + {node.state}, inFrontier + StatesOf(kids), node.state);
    LevelStep(P, explored, q, kids);
    explored' := explored + {node.state};
    count' := count + 1;
    frontier', inFrontier' := QueueFreshChildren(P, node, acts, explored', frontier, inFrontier);
  }

  /** Dropping a polled head whose state is already expanded keeps the
      queue's invariants, level order included. */
  lemma SkipHead<S, A(!new)>(P: Problem<S, A>, U: set<S>, q: seq<Node<S, A>>, explored: set<S>)
    requires q != [] && q[0].state in explored
    requires FrontierOk(P, U, q) && DistinctStates(q)
    requires Complete(P, explored, StatesOf(q)) && LevelOrder(P, explored, q)
    ensures FrontierOk(P, U, q[1..]) && Complete(P, explored, StatesOf(q[1..]))
    ensures LevelOrder(P, explored, q[1..])
  {
    PollAt(P, U, q, 0);
    assert q[..0] + q[1..] == q[1..];
    StatesOfTail(q);
    CompleteSkip(P, explored, StatesOf(q), StatesOf(q[1..]), q[0].state);
    SkipLevel(P, q, explored);
  }

  lemma SkipLevel<S, A(!new)>(P: Problem<S, A>, q: seq<Node<S, A>>, explored: set<S>)
    requires q != [] && q[0].state in explored
    requires Covered(P, explored, explored + StatesOf(q[1..])) && LevelOrder(P, explored, q)
    ensures LevelOrder(P, explored, q[1..])
  {
    assert explored + {q[0].state} == explored;
    assert q[1..] + [] == q[1..];
    LevelStep(P, explored, q, []);
  }

  /** `breadthFirstSearch`. A popped node is goal-tested first, then
      skipped if its state was expanded, else expanded; a child is queued
      only when its state is neither expanded nor already queued. */
  method BreadthFirst<S(==), A(==,!new)>(P: Problem<S, A>, ghost U: set<S>) returns (r: SearchResult<A>)
    requires Closed(P, U) && P.initial in U
    ensures Outcome(P, r)
    ensures NoPath(r) <==> !GoalReachable(P)
    ensures r.nodesExpanded <= |ReachableStates(P, U)|
    ensures NoPath(r) ==> r.nodesExpanded == |ReachableStates(P, U)|
    ensures !NoPath(r) ==> forall plan :: ReachesGoal(P, plan) ==> |r.actions| <= |plan|
  {
    var root := Root(P);
    var frontier := [root];
    var explored: set<S> := {};
    var inFrontier: set<S> := {root.state};
    var nodesExpanded := 0;
    StatesOfAppend([], [root]);
    CompleteInit(P);
    LevelInit(P);
    while frontier != []
      invariant FrontierOk(P, U, frontier)
      invariant DistinctStates(frontier) && inFrontier == StatesOf(frontier)
      invariant ExpandedStates(P, U, explored, nodesExpanded)
      invariant Complete(P, explored, inFrontier)
      invariant LevelOrder(P, explored, frontier)
      decreases |U - explored|, |frontier|
    {
      var q := frontier;
      var node := frontier[0];
      StatesOfTail(frontier);
      frontier := frontier[1..];
      inFrontier := inFrontier - {node.state};

      if P.isGoal(node.state) {
        var path := ExtractPath(node);
        GoalResult(P, node);
        ExpandedBound(P, U, explored);
        LevelGoal(P, explored, q);
        return SearchResult(path, node.pathCost, nodesExpanded);
      }

      if node.state in explored {
        SkipHead(P, U, q, explored);
        continue;
      }

      frontier, inFrontier, explored, nodesExpanded := ExpandBreadthFirst(P, U, q, inFrontier, explored, nodesExpanded);
    }
    r := NoPathResult(nodesExpanded);
    ExhaustedSearch(P, U, explored, nodesExpanded);
  }

  /** The expansion step of `depthFirstSearch`: mark the popped state
      expanded, count it, and push the children of unexpanded states in
      reverse action order. */
  method ExpandDepthFirst<S(==), A(==,!new)>(P: Problem<S, A>, ghost U: set<S>, node: Node<S, A>,
                                             frontier: seq<Node<S, A>>, explored: set<S>, count: nat, ghost T: set<S>)
    returns (frontier': seq<Node<S, A>>, explored': set<S>, count': nat)
    requires Closed(P, U) && FrontierOk(P, U, frontier)
    requires ValidNode(P, node) && node.state in U && !P.isGoal(node.state) && node.state !in explored
    requires ExpandedStates(P, U, explored, count) && Complete(P, explored, T) && T <= StatesOf(frontier) + {node.state}
    ensures frontier' == frontier + Reverse(Children(P, node, P.actions(node.state), explored'))
    ensures explored' == explored + {node.state} && count' == count + 1
    ensures FrontierOk(P, U, frontier')
    ensures ExpandedStates(P, U, explored', count') && Complete(P, explored', StatesOf(frontier'))
    ensures |U - explored'| < |U - explored|
  {
    NodeReachable(P, node);
    var acts := P.actions(node.state);
    OfferedHaveResults(P, U, node.state);
    ChildrenFacts(P, U, node, acts, explored + {node.state});
    ghost var kids := Children(P, node, acts, explored + {node.state});
    ReversedChildren(P, U, kids);
    FrontierOkAppend(P, U, frontier, Reverse(kids));
    ExpandStep(P, U, explored, count, T, StatesOf(frontier) + StatesOf(kids), node.state);
    explored' := explored + {node.state};
    count' := count + 1;
    frontier' := PushChildrenReversed(P, node, acts, explored', frontier);
  }

  /** `depthFirstSearch`. Children whose state is not yet expanded are
      pushed in reverse action order, so the first action is tried first. */
  method DepthFirst<S(==), A(==,!new)>(P: Problem<S, A>, ghost U: set<S>) returns (r: SearchResult<A>)
    requires Closed(P, U) && P.initial in U
    ensures Outcome(P, r)
    ensures NoPath(r) <==> !GoalReachable(P)
    ensures r.nodesExpanded <= |ReachableStates(P, U)|
    ensures NoPath(r) ==> r.nodesExpanded == |ReachableStates(P, U)|
  {
    var frontier := [Root(P)];
    var explored: set<S> := {};
    var nodesExpanded := 0;
    StatesOfAppend([], [Root(P)]);
    CompleteInit(P);
    while frontier != []
      invariant FrontierOk(P, U, frontier)
      invariant ExpandedStates(P, U, explored, nodesExpanded)
      invariant Complete(P, explored, StatesOf(frontier))
      decreases |U - explored|, |frontier|
    {
      var top := |frontier| - 1;
      var node := frontier[top];
      PollAt(P, U, frontier, top);
      assert frontier[..top] + frontier[top + 1..] == frontier[..top];
      ghost var T := StatesOf(frontier);
      frontier := frontier[..top];

      if P.isGoal(node.state) {
        var path := ExtractPath(node);
        GoalResult(P, node);
        ExpandedBound(P, U, explored);
        return SearchResult(path, node.pathCost, nodesExpanded);
      }

      if node.state in explored {
        CompleteSkip(P, explored, T, StatesOf(frontier), node.state);
        continue;
      }

      frontier, explored, nodesExpanded := ExpandDepthFirst(P, U, node, frontier, explored, nodesExpanded, T);
    }
    r := NoPathResult(nodesExpanded);
    ExhaustedSearch(P, U, explored, nodesExpanded);
  }

  /** After a depth-first expansion the child of the first offered action
      (when its state is not expanded) is on top of the stack. */
  lemma FirstActionOnTop<S, A>(P: Problem<S, A>, n: Node<S, A>, acts: seq<A>, skip: set<S>, stack: seq<Node<S, A>>)
    requires forall a :: a in acts ==> P.result(n.state, a).Some?
    requires acts != [] && P.result(n.state, acts[0]).value !in skip
    ensures var pushed := stack + Reverse(Children(P, n, acts, skip));
      pushed[|pushed| - 1] == Child(P, n, acts[0], P.result(n.state, acts[0]).value)
  {
    var c := Child(P, n, acts[0], P.result(n.state, acts[0]).value);
    ReverseAppend([c], Children(P, n, acts[1..], skip));
  }
}
