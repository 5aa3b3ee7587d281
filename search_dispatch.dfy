/** The `search` entry point of backend/src/code/GenericSearch.java: one
    algorithm per strategy code, with the heuristic slot it reads. */
module SearchDispatch {
  import opened Wrappers
  import opened Costs
  import opened SearchModel
  import opened Strategies
  import opened UninformedSearch
  import opened DepthSearch
  import opened InformedSearch

  datatype Algorithm = BreadthFirstSearch | DepthFirstSearch | IterativeDeepeningSearch
                     | UniformCostSearch | GreedySearch | AStarSearch

  /** Which of the two heuristics an algorithm is given, if any. */
  datatype Slot = NoHeuristic | FirstHeuristic | SecondHeuristic

  /** The `switch` of `search`. */
  function Route(x: Strategy): (Algorithm, Slot) {
    match x
    case BF => (BreadthFirstSearch, NoHeuristic)
    case DF => (DepthFirstSearch, NoHeuristic)
    case ID => (IterativeDeepeningSearch, NoHeuristic)
    case UC => (UniformCostSearch, NoHeuristic)
    case GR1 => (GreedySearch, FirstHeuristic)
    case GR2 => (GreedySearch, SecondHeuristic)
    case AS1 => (AStarSearch, FirstHeuristic)
    case AS2 => (AStarSearch, SecondHeuristic)
  }

  /** Distinct codes select distinct algorithm-and-heuristic pairs, and a
      heuristic is read by exactly the greedy and A* codes: h1 by GR1 and
      AS1, h2 by GR2 and AS2. */
  lemma RouteFacts(x: Strategy, y: Strategy)
    ensures Route(x) == Route(y) ==> x == y
    ensures Route(x).1 != NoHeuristic <==> Route(x).0 in {GreedySearch, AStarSearch}
    ensures Route(x).1 == FirstHeuristic <==> x in {GR1, AS1}
    ensures Route(x).1 == SecondHeuristic <==> x in {GR2, AS2}
  {
  }

  /** Uniform-cost and A* need non-negative step costs to terminate. */
  predicate CostGuidedCode(x: Strategy) {
    Route(x).0 in {UniformCostSearch, AStarSearch}
  }

  /** The heuristic a code reads, or none. */
  function HeuristicOf<S>(x: Strategy, h1: S -> int, h2: S -> int): Option<S -> int> {
    match Route(x).1
    case NoHeuristic => None
    case FirstHeuristic => Some(h1)
    case SecondHeuristic => Some(h2)
  }

  /** `search`: run the algorithm the code selects. */
  method Search<S(==), A(==,!new)>(P: Problem<S, A>, ghost U: set<S>, x: Strategy, h1: S -> int, h2: S -> int)
    returns (r: SearchResult<A>)
    requires Closed(P, U) && P.initial in U
    requires CostGuidedCode(x) ==> NonNegativeSteps(P, U)
    ensures Outcome(P, r)
    ensures x != ID ==> (NoPath(r) <==> !GoalReachable(P))
    ensures x == ID ==> (FiniteSteps(P, U) ==> (NoPath(r) <==> !GoalReachableWithin(P, MaxDepthLimit + 1)))
    ensures x == ID && !NoPath(r) ==> |r.actions| <= MaxDepthLimit + 1
    ensures (x == BF || (x == ID && FiniteSteps(P, U))) && !NoPath(r) ==>
      forall plan :: ReachesGoal(P, plan) ==> |r.actions| <= |plan|
    ensures x in {BF, DF, GR1, GR2} ==> r.nodesExpanded <= |ReachableStates(P, U)|
    ensures x == UC ==> Optimal(P, r)
    ensures x in {AS1, AS2} && Admissible(P, HeuristicOf(x, h1, h2).value, U) ==> Optimal(P, r)
  {
    match x
    case BF => r := BreadthFirst(P, U);
    case DF => r := DepthFirst(P, U);
    case ID => ghost var runs; r, runs := IterativeDeepening(P, U);
    case UC => r := UniformCost(P, U);
    case GR1 => r := GreedyBestFirst(P, U, h1);
    case GR2 => r := GreedyBestFirst(P, U, h2);
    case AS1 => r := AStar(P, U, h1);
    case AS2 => r := AStar(P, U, h2);
  }

  /** With finite step costs a result costs infinity exactly when it is the
      failure result, which is what the result serialiser tests. */
  lemma InfiniteMeansNoPath<S, A>(P: Problem<S, A>, U: set<S>, r: SearchResult<A>)
    requires Closed(P, U) && P.initial in U && FiniteSteps(P, U) && Outcome(P, r)
    ensures r.cost.Inf? <==> NoPath(r)
  {
    if !NoPath(r) {
      RunFinite(P, U, Start(P), r.actions);
    }
  }
}
