/** The delivery problem of backend/src/main/java/code/DeliverySearch.java:
    a truck moves on a grid whose directed traffic levels say which moves
    are open and what they cost, and it can go through a tunnel from either
    entrance to the other at the cost of their Manhattan distance. */
module Delivery {
  import opened Wrappers
  import opened Costs
  import opened SearchModel
  import opened Grid
  import opened Tunnels
  import opened Actions
  import opened JavaText
  import opened Strategies
  import opened Heuristics
  import opened SearchDispatch
  import opened InformedSearch
  import opened GridDistance
  import opened DeliveryInput

  // ------------------------------------------------------------------
  // The transition system

  predicate IsMove(a: Action) {
    a != Action.Tunnel
  }

  /** The cell a movement leads to: UP and DOWN change `x`, LEFT and RIGHT `y`. */
  function Neighbour(s: State, a: Action): State
    requires IsMove(a)
  {
    if a == Up then State(s.x - 1, s.y)
    else if a == Down then State(s.x + 1, s.y)
    else if a == Left then State(s.x, s.y - 1)
    else State(s.x, s.y + 1)
  }

  /** The forward traffic entry from `s` to `t` exists and is positive. */
  predicate Open(traffic: Traffic, s: State, t: State) {
    s in traffic && t in traffic[s] && traffic[s][t] > 0
  }

  /** The movement `a` if it is open from `s`. */
  function MoveIfOpen(traffic: Traffic, s: State, a: Action): seq<Action>
    requires IsMove(a)
  {
    if Open(traffic, s, Neighbour(s, a)) then [a] else []
  }

  /** `actions`: the open movements in the order UP, DOWN, LEFT, RIGHT, then
      TUNNEL once if some tunnel has `s` as an entrance. */
  function ActionsOf(traffic: Traffic, ts: seq<Tunnel>, s: State): seq<Action> {
    MoveIfOpen(traffic, s, Up) + MoveIfOpen(traffic, s, Down) + MoveIfOpen(traffic, s, Left)
    + MoveIfOpen(traffic, s, Right) + (if AtEntrance(ts, s) then [Action.Tunnel] else [])
  }

  /** `result`: `None` for TUNNEL away from every entrance, where the Java
      code throws `IllegalStateException`. */
  function ResultOf(ts: seq<Tunnel>, s: State, a: Action): Option<State> {
    if a == Action.Tunnel then FirstOtherEnd(ts, s) else Some(Neighbour(s, a))
  }

  /** `stepCost`: the Manhattan distance for TUNNEL; for a movement the
      traffic level when it is there and positive, else +infinity. */
  function StepCostOf(traffic: Traffic, s: State, a: Action, t: State): Cost {
    if a == Action.Tunnel then Fin(Manhattan(t, s))
    else if Open(traffic, s, t) then Fin(traffic[s][t])
    else Inf
  }

  /** The problem with the start and goal of `setPath`. */
  function ProblemOf(traffic: Traffic, ts: seq<Tunnel>, start: State, goal: State): Problem<State, Action> {
    Problem(start, s => s == goal, s => ActionsOf(traffic, ts, s),
            (s, a) => ResultOf(ts, s, a), (s, a, t) => StepCostOf(traffic, s, a, t))
  }

  /** The states a move can lead to: the destinations of the traffic map. */
  function Destinations(traffic: Traffic): set<State> {
    set s, t | s in traffic && t in traffic[s] :: t
  }

  /** A finite set of states that holds `start` and everything reachable from it. */
  function UniverseOf(traffic: Traffic, ts: seq<Tunnel>, start: State): set<State> {
    {start} + Destinations(traffic) + TunnelEnds(ts)
  }

  /** The position of an action in the order `actions` tries them. */
  function Rank(a: Action): nat {
    match a
    case Up => 0
    case Down => 1
    case Left => 2
    case Right => 3
    case Tunnel => 4
  }

  // ------------------------------------------------------------------
  // What the transition system promises

  /** A movement is offered exactly when its forward entry is positive, and
      TUNNEL exactly at an entrance. */
  lemma ActionsOffered(traffic: Traffic, ts: seq<Tunnel>, s: State, a: Action)
    ensures IsMove(a) ==> (a in ActionsOf(traffic, ts, s) <==> Open(traffic, s, Neighbour(s, a)))
    ensures a == Action.Tunnel ==> (a in ActionsOf(traffic, ts, s) <==> AtEntrance(ts, s))
  {
  }

  /** The actions come in the order UP, DOWN, LEFT, RIGHT, TUNNEL, each at
      most once. */
  lemma ActionsOrdered(traffic: Traffic, ts: seq<Tunnel>, s: State)
    ensures forall i, j :: 0 <= i < j < |ActionsOf(traffic, ts, s)| ==>
      Rank(ActionsOf(traffic, ts, s)[i]) < Rank(ActionsOf(traffic, ts, s)[j])
  {
    var u := MoveIfOpen(traffic, s, Up);
    var d := MoveIfOpen(traffic, s, Down);
    var l := MoveIfOpen(traffic, s, Left);
    var r := MoveIfOpen(traffic, s, Right);
    var t: seq<Action> := if AtEntrance(ts, s) then [Action.Tunnel] else [];
    var acts := ActionsOf(traffic, ts, s);
    assert acts == u + d + l + r + t;
    forall k | 0 <= k < |acts|
      ensures Rank(acts[k]) == (if k < |u| then 0 else if k < |u + d| then 1 else if k < |u + d + l| then 2
                                else if k < |u + d + l + r| then 3 else 4)
    {
    }
  }

  /** A movement moves by one cell. */
  lemma MoveDistance(s: State, a: Action)
    requires IsMove(a)
    ensures Manhattan(s, Neighbour(s, a)) == 1
  {
    var t := Neighbour(s, a);
    AbsValue(s.x - t.x);
    AbsValue(s.y - t.y);
  }

  /** UP and DOWN undo each other, and so do LEFT and RIGHT. */
  lemma MovesInverse(s: State)
    ensures Neighbour(Neighbour(s, Up), Down) == s && Neighbour(Neighbour(s, Down), Up) == s
    ensures Neighbour(Neighbour(s, Left), Right) == s && Neighbour(Neighbour(s, Right), Left) == s
  {
  }

  /** A movement costs its traffic level exactly when it is open, which is
      then finite and positive; otherwise +infinity. */
  lemma MoveCost(traffic: Traffic, s: State, a: Action, t: State)
    requires IsMove(a)
    ensures StepCostOf(traffic, s, a, t).Fin? <==> Open(traffic, s, t)
    ensures Open(traffic, s, t) ==> StepCostOf(traffic, s, a, t) == Fin(traffic[s][t]) && traffic[s][t] > 0
  {
  }

  /** TUNNEL leads to the other end of the first tunnel with entrance `s`,
      at that tunnel's cost; away from every entrance it has no result. */
  lemma TunnelStep(ts: seq<Tunnel>, traffic: Traffic, s: State)
    ensures ResultOf(ts, s, Action.Tunnel).Some? <==> AtEntrance(ts, s)
    ensures AtEntrance(ts, s) ==>
      exists i :: (FirstEntrance(ts, s, i) && ResultOf(ts, s, Action.Tunnel) == OtherEnd(ts[i], s)
        && StepCostOf(traffic, s, Action.Tunnel, OtherEnd(ts[i], s).value) == Fin(TunnelCost(ts[i])))
  {
    if AtEntrance(ts, s) {
      var r := FirstOtherEnd(ts, s);
      assert r.Some?;
      var i :| 0 <= i < |ts| && FirstEntrance(ts, s, i) && r == OtherEnd(ts[i], s);
      CostIsDistance(ts[i], s);
      ManhattanSymmetric(s, r.value);
      assert StepCostOf(traffic, s, Action.Tunnel, r.value) == Fin(TunnelCost(ts[i]));
    }
  }

  /** A movement changes the Manhattan distance to any goal by exactly one. */
  lemma MoveChangesDistanceByOne(s: State, g: State, a: Action)
    requires IsMove(a)
    ensures Manhattan(Neighbour(s, a), g) == Manhattan(s, g) + 1 || Manhattan(Neighbour(s, a), g) == Manhattan(s, g) - 1
  {
    var t := Neighbour(s, a);
    AbsValue(s.x - g.x);
    AbsValue(s.y - g.y);
    AbsValue(t.x - g.x);
    AbsValue(t.y - g.y);
  }

  /** One offered step of the problem: it stays in the universe, its cost is
      finite, and it is at least the Manhattan distance it covers. */
  lemma OfferedStep(traffic: Traffic, ts: seq<Tunnel>, start: State, goal: State, s: State, a: Action)
    requires a in ActionsOf(traffic, ts, s)
    ensures ResultOf(ts, s, a).Some? && ResultOf(ts, s, a).value in UniverseOf(traffic, ts, start)
    ensures StepCostOf(traffic, s, a, ResultOf(ts, s, a).value).Fin?
    ensures Manhattan(s, ResultOf(ts, s, a).value) <= StepCostOf(traffic, s, a, ResultOf(ts, s, a).value).v
  {
    ActionsOffered(traffic, ts, s, a);
    if a == Action.Tunnel {
      FirstOtherEndCost(ts, s);
      ManhattanSymmetric(s, FirstOtherEnd(ts, s).value);
    } else {
      var t := Neighbour(s, a);
      MoveDistance(s, a);
      assert t in Destinations(traffic);
    }
  }

  /** The problem is closed over its universe, and every offered step has a
      finite, non-negative cost of at least the distance it covers. */
  lemma WellFormed(traffic: Traffic, ts: seq<Tunnel>, start: State, goal: State)
    ensures var P := ProblemOf(traffic, ts, start, goal);
      var U := UniverseOf(traffic, ts, start);
      && P.initial in U && Closed(P, U) && NonNegativeSteps(P, U) && FiniteSteps(P, U) && StepsCoverDistance(P, U)
  {
    forall s, a | a in ActionsOf(traffic, ts, s)
      ensures ResultOf(ts, s, a).Some? && ResultOf(ts, s, a).value in UniverseOf(traffic, ts, start)
      ensures StepCostOf(traffic, s, a, ResultOf(ts, s, a).value).Fin?
      ensures Manhattan(s, ResultOf(ts, s, a).value) <= StepCostOf(traffic, s, a, ResultOf(ts, s, a).value).v
    {
      OfferedStep(traffic, ts, start, goal, s, a);
    }
  }

  /** Both heuristics are admissible for the problem: h1 is the Manhattan
      distance to the goal, and h2 is equal to it. */
  lemma HeuristicsAdmissible(traffic: Traffic, ts: seq<Tunnel>, start: State, goal: State, h1: State -> int, h2: State -> int)
    requires forall s :: h1(s) == Manhattan(s, goal)
    requires forall s :: h2(s) == TrafficH(Some(goal), ts, s)
    ensures Admissible(ProblemOf(traffic, ts, start, goal), h1, UniverseOf(traffic, ts, start))
    ensures Admissible(ProblemOf(traffic, ts, start, goal), h2, UniverseOf(traffic, ts, start))
  {
    var P := ProblemOf(traffic, ts, start, goal);
    var U := UniverseOf(traffic, ts, start);
    WellFormed(traffic, ts, start, goal);
    ManhattanAdmissible(P, U, goal);
    AdmissibleBelow(P, U, h1, s => Manhattan(s, goal));
    forall s | s in U
      ensures 0 <= h2(s) <= Manhattan(s, goal)
    {
      TrafficIsManhattan(goal, ts, s);
    }
    AdmissibleBelow(P, U, h2, s => Manhattan(s, goal));
  }

  // ------------------------------------------------------------------
  // The result text

  const NoPathText := "no path;0;0"

  function Names(acts: seq<Action>): (r: seq<string>)
    ensures |r| == |acts|
  {
    seq(|acts|, i requires 0 <= i < |acts| => Actions.ToString(acts[i]))
  }

  /** The actions joined with commas. */
  function ActionsText(acts: seq<Action>): string {
    Join(Names(acts), ',')
  }

  /** The text `path` returns: `"no path;0;0"` for an infinite cost, else
      the actions, the cost cast to `int` and the expansion count. */
  function PathText(r: SearchResult<Action>): string {
    if r.cost.Inf? then NoPathText
    else ActionsText(r.actions) + ";" + IntToString(SaturateInt(r.cost.v)) + ";" + IntToString(r.nodesExpanded)
  }

  /** The action names hold no space, comma or semicolon. */
  lemma NamesAvoid(acts: seq<Action>, c: char)
    requires c in {' ', ',', ';'}
    ensures forall i :: 0 <= i < |acts| ==> c !in Names(acts)[i]
  {
    forall i | 0 <= i < |acts|
      ensures c !in Names(acts)[i]
    {
      NamesDistinct(acts[i], acts[i]);
      assert Names(acts)[i] == Actions.ToString(acts[i]);
    }
  }

  /** The result text is `"no path;0;0"` exactly when the cost is infinite. */
  lemma NoPathExactly(r: SearchResult<Action>)
    ensures PathText(r) == NoPathText <==> r.cost.Inf?
  {
    if r.cost.Fin? {
      PathTextNoSpace(r);
      assert NoPathText[2] == ' ';
    }
  }

  /** The text of a found path has no space. */
  lemma PathTextNoSpace(r: SearchResult<Action>)
    requires r.cost.Fin?
    ensures ' ' !in PathText(r)
  {
    NamesAvoid(r.actions, ' ');
    JoinAvoids(Names(r.actions), ',', ' ');
    IntToStringHasNo(SaturateInt(r.cost.v), ' ');
    IntToStringHasNo(r.nodesExpanded, ' ');
  }

  lemma JoinThree(a: string, b: string, c: string, sep: char)
    ensures Join([a, b, c], sep) == a + [sep] + b + [sep] + c
  {
    assert [a, b, c][1..] == [b, c];
    assert [b, c][1..] == [c];
    assert Join([b, c], sep) == b + [sep] + c;
    assert Join([a, b, c], sep) == a + [sep] + (b + [sep] + c);
  }

  /** A finite result splits at `;` into the actions, the cost and the count. */
  lemma PathFields(r: SearchResult<Action>)
    requires r.cost.Fin?
    ensures Split(PathText(r), ';') == [ActionsText(r.actions), IntToString(SaturateInt(r.cost.v)), IntToString(r.nodesExpanded)]
  {
    var a := ActionsText(r.actions);
    var c := IntToString(SaturateInt(r.cost.v));
    var e := IntToString(r.nodesExpanded);
    NamesAvoid(r.actions, ';');
    JoinAvoids(Names(r.actions), ',', ';');
    IntToStringHasNo(SaturateInt(r.cost.v), ';');
    IntToStringHasNo(r.nodesExpanded, ';');
    JoinThree(a, c, e, ';');
    var parts := [a, c, e];
    assert forall i :: 0 <= i < |parts| ==> ';' !in parts[i];
    SplitJoin(parts, ';');
  }

  /** The cost field parses back to the cost, cast to `int`. */
  lemma PathCost(r: SearchResult<Action>)
    requires r.cost.Fin?
    ensures |Split(PathText(r), ';')| == 3
    ensures ParseInt(Split(PathText(r), ';')[1]) == Success(SaturateInt(r.cost.v))
  {
    PathFields(r);
    IntRoundTrip(SaturateInt(r.cost.v));
  }

  /** The actions field splits at `,` into names that parse back to the actions. */
  lemma ActionsTextRoundTrip(acts: seq<Action>)
    requires acts != []
    ensures Split(ActionsText(acts), ',') == Names(acts)
    ensures forall i :: 0 <= i < |acts| ==> Actions.FromString(Split(ActionsText(acts), ',')[i]) == Success(acts[i])
  {
    NamesAvoid(acts, ',');
    NamesDistinct(acts[|acts| - 1], acts[|acts| - 1]);
    SplitJoin(Names(acts), ',');
    forall i | 0 <= i < |acts|
      ensures Actions.FromString(Names(acts)[i]) == Success(acts[i])
    {
      RoundTrip(acts[i]);
    }
  }

  // ------------------------------------------------------------------
  // The class

  /** `DeliverySearch`: the parsed grid, the two heuristics, and the start and
      goal of the current search (`None` until `setPath`, the Java `null`). */
  class DeliverySearch {
    const m: int
    const n: int
    const traffic: Traffic
    const tunnels: seq<Tunnel>
    const stores: seq<State>
    const customers: seq<State>
    const trucks: seq<State>
    const h1: ManhattanHeuristic
    const h2: TrafficAwareHeuristic
    var start: Option<State>
    var goal: Option<State>

    constructor(c: Config, h1: ManhattanHeuristic, h2: TrafficAwareHeuristic)
      ensures m == c.m && n == c.n && traffic == c.traffic && tunnels == c.tunnels
      ensures stores == c.stores && customers == c.customers && trucks == c.trucks
      ensures this.h1 == h1 && this.h2 == h2 && start == None && goal == None
    {
      m := c.m;
      n := c.n;
      traffic := c.traffic;
      tunnels := c.tunnels;
      stores := c.stores;
      customers := c.customers;
      trucks := c.trucks;
      this.h1 := h1;
      this.h2 := h2;
      start := None;
      goal := None;
    }

    /** `setPath`: record the start and goal and aim both heuristics at the goal. */
    method SetPath(s: State, g: State)
      modifies this, h1, h2
      ensures start == Some(s) && goal == Some(g)
      ensures h1.goal == Some(g) && h1.tunnels == tunnels
      ensures h2.goal == Some(g) && h2.tunnels == tunnels
      ensures forall p :: p in h2.cache <==> |tunnels| > 1 && 0 <= p.0 < p.1 < |tunnels|
    {
      start := Some(s);
      goal := Some(g);
      h1.SetGoal(g, tunnels);
      h2.SetGoal(g, tunnels);
    }

    /** `isGoal`: equality with the goal; nothing is a goal before `setPath`. */
    predicate IsGoal(s: State)
      reads this
    {
      goal == Some(s)
    }

    /** `actions`, with its list appends and the tunnel loop that stops at
      the first entrance. */
    method ActionsAt(s: State) returns (acts: seq<Action>)
      ensures acts == ActionsOf(traffic, tunnels, s)
    {
      acts := [];
      if s in traffic {
        var neighbors := traffic[s];
        var up := State(s.x - 1, s.y);
        if up in neighbors && neighbors[up] > 0 {
          acts := acts + [Up];
        }
        var down := State(s.x + 1, s.y);
        if down in neighbors && neighbors[down] > 0 {
          acts := acts + [Down];
        }
        var left := State(s.x, s.y - 1);
        if left in neighbors && neighbors[left] > 0 {
          acts := acts + [Left];
        }
        var right := State(s.x, s.y + 1);
        if right in neighbors && neighbors[right] > 0 {
          acts := acts + [Right];
        }
      }
      assert acts == MoveIfOpen(traffic, s, Up) + MoveIfOpen(traffic, s, Down)
                     + MoveIfOpen(traffic, s, Left) + MoveIfOpen(traffic, s, Right);
      var i := 0;
      while i < |tunnels|
        invariant 0 <= i <= |tunnels|
        invariant forall j :: 0 <= j < i ==> !IsEntrance(tunnels[j], s)
      {
        if IsEntrance(tunnels[i], s) {
          acts := acts + [Action.Tunnel];
          return;
        }
        i := i + 1;
      }
    }
  }

  /** The static `path` (and the instance `path`, which returns the search
      result itself): aim the problem at `g` from `s`, run the search the
      strategy selects, and write the result. The heuristics are given to
      the search as the functions their `h` is proved equal to. */
  method Path(ds: DeliverySearch, s: State, g: State, x: Strategy) returns (r: SearchResult<Action>, out: string)
    modifies ds, ds.h1, ds.h2
    ensures ds.start == Some(s) && ds.goal == Some(g) && ds.h1.goal == Some(g) && ds.h2.goal == Some(g)
    ensures ds.h1.tunnels == ds.tunnels && ds.h2.tunnels == ds.tunnels
    ensures Promised(ds.traffic, ds.tunnels, s, g, x, r)
    ensures out == PathText(r)
  {
    ds.SetPath(s, g);
    r := SearchGrid(ds.traffic, ds.tunnels, s, g, x);
    out := PathText(r);
  }

  /** What `path` promises about the search from `s` to `g`: a failure
      result or a plan to the goal at its cost; for every code but ID a
      failure exactly when the goal is unreachable; for UC, AS1 and AS2 a
      cheapest plan. */
  ghost predicate Promised(traffic: Traffic, ts: seq<Tunnel>, s: State, g: State, x: Strategy, r: SearchResult<Action>) {
    var P := ProblemOf(traffic, ts, s, g);
    && Outcome(P, r)
    && (x != ID ==> (NoPath(r) <==> !GoalReachable(P)))
    && (x in {UC, AS1, AS2} ==> Optimal(P, r))
  }

  /** A promised result costs +infinity exactly when it is the failure
      result (for every code but ID: when the goal is unreachable), and a
      finite cost is not negative. */
  lemma PromisedCost(traffic: Traffic, ts: seq<Tunnel>, s: State, g: State, x: Strategy, r: SearchResult<Action>)
    requires Promised(traffic, ts, s, g, x, r)
    ensures r.cost.Inf? <==> NoPath(r)
    ensures x != ID ==> (r.cost.Inf? <==> !GoalReachable(ProblemOf(traffic, ts, s, g)))
    ensures r.cost.Fin? ==> r.cost.v >= 0
  {
    var P := ProblemOf(traffic, ts, s, g);
    var U := UniverseOf(traffic, ts, s);
    WellFormed(traffic, ts, s, g);
    InfiniteMeansNoPath(P, U, r);
    if r.cost.Fin? {
      RunNonNegative(P, U, Start(P), r.actions);
    }
  }

  /** The search `path` runs once the problem is aimed at `g` from `s`. */
  method SearchGrid(traffic: Traffic, ts: seq<Tunnel>, s: State, g: State, x: Strategy) returns (r: SearchResult<Action>)
    ensures Outcome(ProblemOf(traffic, ts, s, g), r)
    ensures x != ID ==> (NoPath(r) <==> !GoalReachable(ProblemOf(traffic, ts, s, g)))
    ensures x in {UC, AS1, AS2} ==> Optimal(ProblemOf(traffic, ts, s, g), r)
  {
    var P := ProblemOf(traffic, ts, s, g);
    ghost var U := UniverseOf(traffic, ts, s);
    var h1 := (t: State) => Manhattan(t, g);
    var h2 := (t: State) => TrafficH(Some(g), ts, t);
    ReadyToSearch(traffic, ts, s, g, h1, h2);
    if x == AS1 {
      assert HeuristicOf(x, h1, h2) == Some(h1);
    } else if x == AS2 {
      assert HeuristicOf(x, h1, h2) == Some(h2);
    }
    r := Search(P, U, x, h1, h2);
  }

  /** What the dispatcher needs of the grid problem: it is closed over its
      universe with non-negative steps, and both heuristics are admissible. */
  lemma ReadyToSearch(traffic: Traffic, ts: seq<Tunnel>, s: State, g: State, h1: State -> int, h2: State -> int)
    requires forall t :: h1(t) == Manhattan(t, g)
    requires forall t :: h2(t) == TrafficH(Some(g), ts, t)
    ensures var P := ProblemOf(traffic, ts, s, g);
      var U := UniverseOf(traffic, ts, s);
      && Closed(P, U) && P.initial in U && NonNegativeSteps(P, U)
      && Admissible(P, h1, U) && Admissible(P, h2, U)
  {
    WellFormed(traffic, ts, s, g);
    HeuristicsAdmissible(traffic, ts, s, g, h1, h2);
  }

  /** `fromStrings`: parse the input and build the problem with a fresh
      Manhattan heuristic and a fresh traffic-aware one. */
  method FromStrings(initial: string, trafficStr: string) returns (r: Result<DeliverySearch>)
    ensures r.Success? <==> ConfigOf(initial, trafficStr).Success?
    ensures r.Success? ==> fresh(r.value) && fresh(r.value.h1) && fresh(r.value.h2)
    ensures r.Success? ==> var c := ConfigOf(initial, trafficStr).value;
      && r.value.m == c.m && r.value.n == c.n && r.value.traffic == c.traffic && r.value.tunnels == c.tunnels
      && r.value.stores == c.stores && r.value.customers == c.customers && r.value.trucks == c.trucks
      && r.value.start == None && r.value.goal == None
  {
    var c := ParseConfig(initial, trafficStr);
    if c.Failure? {
      return Failure(c.error);
    }
    var h1 := new ManhattanHeuristic();
    var h2 := new TrafficAwareHeuristic();
    var ds := new DeliverySearch(c.value, h1, h2);
    return Success(ds);
  }
}
