/** The vocabulary of the generic search engine (backend/src/code/GenericSearch.java):
    the problem it searches, the parent-linked search node, the result it
    returns, and what it means to replay a list of actions. */
module SearchModel {
  import opened Wrappers
  import opened Costs

  /** The `Problem<S, A>` interface as a record of its five operations.
      `result` is `None` where the Java implementation throws. */
  datatype Problem<!S, !A> = Problem(
    initial: S,
    isGoal: S -> bool,
    actions: S -> seq<A>,
    result: (S, A) -> Option<S>,
    stepCost: (S, A, S) -> Cost)

  /** `GenericSearch.SearchResult`: actions, cost and expansion count. */
  datatype SearchResult<A> = SearchResult(actions: seq<A>, cost: Cost, nodesExpanded: nat)

  /** A search node: its state, the link to its parent (absent at the root:
      the Java parent and action are both null there), its depth and g. */
  datatype Node<S, A> = Node(state: S, link: Option<Link<S, A>>, depth: nat, pathCost: Cost)
  datatype Link<S, A> = Link(parent: Node<S, A>, action: A)

  function Root<S, A>(P: Problem<S, A>): Node<S, A> {
    Node(P.initial, None, 0, Fin(0))
  }

  /** The node the engine creates when it applies `a` to `parent`. */
  function Child<S, A>(P: Problem<S, A>, parent: Node<S, A>, a: A, t: S): Node<S, A> {
    Node(t, Some(Link(parent, a)), parent.depth + 1, Add(parent.pathCost, P.stepCost(parent.state, a, t)))
  }

  /** The failure result every algorithm returns: no actions, cost +infinity. */
  function NoPathResult<A>(expanded: nat): SearchResult<A> {
    SearchResult([], Inf, expanded)
  }

  predicate NoPath<A>(r: SearchResult<A>) {
    r.actions == [] && r.cost == Inf
  }

  // ------------------------------------------------------------------
  // Replaying actions

  /** Where an agent stands, and what it has paid to get there. */
  datatype Arrival<S> = Arrival(state: S, cost: Cost)

  function Start<S, A>(P: Problem<S, A>): Arrival<S> {
    Arrival(P.initial, Fin(0))
  }

  /** One step: the action must be offered by `actions` and `result` must
      be defined; the step cost is added to what was paid so far. */
  function Step<S, A(==)>(P: Problem<S, A>, from: Arrival<S>, a: A): Option<Arrival<S>> {
    if a in P.actions(from.state) && P.result(from.state, a).Some? then
      var t := P.result(from.state, a).value;
      Some(Arrival(t, Add(from.cost, P.stepCost(from.state, a, t))))
    else
      None
  }

  /** Replaying a plan step by step from an arrival. */
  function Run<S, A(==)>(P: Problem<S, A>, from: Arrival<S>, plan: seq<A>): Option<Arrival<S>>
    decreases |plan|
  {
    if plan == [] then Some(from)
    else
      match Step(P, from, plan[0])
      case None => None
      case Some(next) => Run(P, next, plan[1..])
  }

  /** `plan` leads from the initial state to a goal state at cost `cost`. */
  ghost predicate Solves<S, A>(P: Problem<S, A>, plan: seq<A>, cost: Cost) {
    && Run(P, Start(P), plan).Some?
    && P.isGoal(Run(P, Start(P), plan).value.state)
    && Run(P, Start(P), plan).value.cost == cost
  }

  ghost predicate ReachesGoal<S, A>(P: Problem<S, A>, plan: seq<A>) {
    Run(P, Start(P), plan).Some? && P.isGoal(Run(P, Start(P), plan).value.state)
  }

  ghost predicate GoalReachable<S, A(!new)>(P: Problem<S, A>) {
    exists plan :: ReachesGoal(P, plan)
  }

  ghost predicate GoalReachableWithin<S, A(!new)>(P: Problem<S, A>, bound: nat) {
    exists plan :: |plan| <= bound && ReachesGoal(P, plan)
  }

  ghost predicate Reachable<S, A(!new)>(P: Problem<S, A>, s: S) {
    exists plan :: Run(P, Start(P), plan).Some? && Run(P, Start(P), plan).value.state == s
  }

  /** The distinct states of the universe reachable from the initial state. */
  ghost function ReachableStates<S, A(!new)>(P: Problem<S, A>, U: set<S>): set<S> {
    set s | s in U && Reachable(P, s)
  }

  /** What every algorithm returns: either the failure result, or a plan
      that replays from the initial state to a goal at the returned cost. */
  ghost predicate Outcome<S, A>(P: Problem<S, A>, r: SearchResult<A>) {
    NoPath(r) || Solves(P, r.actions, r.cost)
  }

  /** The returned cost is no larger than that of any plan reaching a goal. */
  ghost predicate Optimal<S, A(!new)>(P: Problem<S, A>, r: SearchResult<A>) {
    forall plan :: ReachesGoal(P, plan) ==> Le(r.cost, Run(P, Start(P), plan).value.cost)
  }

  // ------------------------------------------------------------------
  // Finite universes and well-formed problems

  /** `U` holds every state the offered actions lead to from states of `U`,
      and `result` is defined for every offered action. */
  ghost predicate Closed<S, A>(P: Problem<S, A>, U: set<S>) {
    forall s, a :: s in U && a in P.actions(s) ==>
      P.result(s, a).Some? && P.result(s, a).value in U
  }

  ghost predicate NonNegativeSteps<S, A>(P: Problem<S, A>, U: set<S>) {
    forall s, a :: s in U && a in P.actions(s) && P.result(s, a).Some? ==>
      NonNegative(P.stepCost(s, a, P.result(s, a).value))
  }

  ghost predicate FiniteSteps<S, A>(P: Problem<S, A>, U: set<S>) {
    forall s, a :: s in U && a in P.actions(s) && P.result(s, a).Some? ==>
      P.stepCost(s, a, P.result(s, a).value).Fin?
  }

  // ------------------------------------------------------------------
  // Nodes

  /** A node built by the engine: the root holds the initial state at depth
      0 and cost 0; every other node applies an offered action to its parent. */
  ghost predicate ValidNode<S, A>(P: Problem<S, A>, n: Node<S, A>)
    decreases n
  {
    match n.link
    case None => n == Root(P)
    case Some(l) =>
      && ValidNode(P, l.parent)
      && l.action in P.actions(l.parent.state)
      && P.result(l.parent.state, l.action) == Some(n.state)
      && n == Child(P, l.parent, l.action, n.state)
  }

  /** The actions on the root-to-node chain of parent links, in order. */
  function PathOf<S, A>(n: Node<S, A>): seq<A>
    decreases n
  {
    match n.link
    case None => []
    case Some(l) => PathOf(l.parent) + [l.action]
  }

  function Reverse<T>(s: seq<T>): (r: seq<T>)
    ensures |r| == |s|
  {
    if s == [] then [] else Reverse(s[1..]) + [s[0]]
  }

  lemma {:induction false} ReverseAppend<T>(s: seq<T>, t: seq<T>)
    ensures Reverse(s + t) == Reverse(t) + Reverse(s)
    decreases |s|
  {
    if s == [] {
      assert s + t == t;
    } else {
      assert (s + t)[1..] == s[1..] + t;
      ReverseAppend(s[1..], t);
    }
  }

  lemma ReverseSingleton<T>(x: T)
    ensures Reverse([x]) == [x]
  {
  }

  lemma {:induction false} ReverseInvolution<T>(s: seq<T>)
    ensures Reverse(Reverse(s)) == s
    decreases |s|
  {
    if s != [] {
      ReverseInvolution(s[1..]);
      ReverseAppend(Reverse(s[1..]), [s[0]]);
      assert [s[0]] + s[1..] == s;
    }
  }

  /** `extractPath`: walk the parent links into a list, then reverse it. */
  method ExtractPath<S, A>(goalNode: Node<S, A>) returns (path: seq<A>)
    ensures path == PathOf(goalNode)
  {
    var collected: seq<A> := [];
    var current := goalNode;
    while current.link.Some?
      invariant PathOf(goalNode) == PathOf(current) + Reverse(collected)
      decreases current
    {
      var l := current.link.value;
      ReverseAppend(collected, [l.action]);
      assert PathOf(current) + Reverse(collected) == PathOf(l.parent) + ([l.action] + Reverse(collected));
      collected := collected + [l.action];
      current := l.parent;
    }
    path := Reverse(collected);
  }

  lemma {:induction false} RunAppend<S, A>(P: Problem<S, A>, from: Arrival<S>, p: seq<A>, q: seq<A>)
    ensures Run(P, from, p + q) ==
      (if Run(P, from, p).Some? then Run(P, Run(P, from, p).value, q) else None)
    decreases |p|
  {
    if p == [] {
      assert p + q == q;
    } else {
      assert (p + q)[0] == p[0];
      assert (p + q)[1..] == p[1..] + q;
      match Step(P, from, p[0])
      case None =>
      case Some(next) => RunAppend(P, next, p[1..], q);
    }
  }

  lemma RunSnoc<S, A>(P: Problem<S, A>, from: Arrival<S>, p: seq<A>, a: A)
    ensures Run(P, from, p + [a]) ==
      (if Run(P, from, p).Some? then Step(P, Run(P, from, p).value, a) else None)
  {
    RunAppend(P, from, p, [a]);
    if Run(P, from, p).Some? {
      var mid := Run(P, from, p).value;
      assert [a][1..] == [];
    }
  }

  /** The chain of a node built by the engine replays from the initial
      state to the node's state at the node's cost, in `depth` steps. */
  lemma {:induction false} NodePlan<S, A>(P: Problem<S, A>, n: Node<S, A>)
    requires ValidNode(P, n)
    ensures Run(P, Start(P), PathOf(n)) == Some(Arrival(n.state, n.pathCost))
    ensures |PathOf(n)| == n.depth
    decreases n
  {
    match n.link
    case None =>
    case Some(l) =>
      NodePlan(P, l.parent);
      RunSnoc(P, Start(P), PathOf(l.parent), l.action);
  }

  lemma NodeReachable<S, A(!new)>(P: Problem<S, A>, n: Node<S, A>)
    requires ValidNode(P, n)
    ensures Reachable(P, n.state)
  {
    NodePlan(P, n);
  }

  /** A popped goal node gives a result that solves the problem. */
  lemma GoalNodeSolves<S, A>(P: Problem<S, A>, n: Node<S, A>)
    requires ValidNode(P, n) && P.isGoal(n.state)
    ensures Solves(P, PathOf(n), n.pathCost)
  {
    NodePlan(P, n);
  }

  lemma ValidChild<S, A>(P: Problem<S, A>, n: Node<S, A>, a: A)
    requires ValidNode(P, n)
    requires a in P.actions(n.state) && P.result(n.state, a).Some?
    ensures ValidNode(P, Child(P, n, a, P.result(n.state, a).value))
  {
  }

  /** If a set of states contains the initial state and every successor of
      its members, it contains every reachable state. */
  lemma {:induction false} ClosedSetHoldsReachable<S, A>(P: Problem<S, A>, E: set<S>, from: Arrival<S>, plan: seq<A>)
    requires from.state in E
    requires forall s, a :: s in E && a in P.actions(s) && P.result(s, a).Some? ==> P.result(s, a).value in E
    requires Run(P, from, plan).Some?
    ensures Run(P, from, plan).value.state in E
    decreases |plan|
  {
    if plan != [] {
      var next := Step(P, from, plan[0]).value;
      ClosedSetHoldsReachable(P, E, next, plan[1..]);
    }
  }

  lemma {:induction false} RunStaysInUniverse<S, A>(P: Problem<S, A>, U: set<S>, from: Arrival<S>, plan: seq<A>)
    requires Closed(P, U) && from.state in U
    requires Run(P, from, plan).Some?
    ensures Run(P, from, plan).value.state in U
    decreases |plan|
  {
    if plan != [] {
      var next := Step(P, from, plan[0]).value;
      RunStaysInUniverse(P, U, next, plan[1..]);
    }
  }

  /** With finite step costs, a replay from a finite cost stays finite. */
  lemma {:induction false} RunFinite<S, A>(P: Problem<S, A>, U: set<S>, from: Arrival<S>, plan: seq<A>)
    requires Closed(P, U) && FiniteSteps(P, U) && from.state in U && from.cost.Fin?
    requires Run(P, from, plan).Some?
    ensures Run(P, from, plan).value.cost.Fin?
    decreases |plan|
  {
    if plan != [] {
      var next := Step(P, from, plan[0]).value;
      RunFinite(P, U, next, plan[1..]);
    }
  }

  // ------------------------------------------------------------------
  // Set arithmetic used by the termination measures

  lemma SubsetCard<T>(A: set<T>, B: set<T>)
    requires A <= B
    ensures |A| <= |B|
  {
    assert B == A + (B - A);
  }

  lemma GrowShrinksRemainder<T>(U: set<T>, E: set<T>, x: T)
    requires x in U && x !in E
    ensures |U - (E + {x})| < |U - E|
  {
    assert U - E == (U - (E + {x})) + {x};
  }
}
