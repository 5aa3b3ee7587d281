/** The older delivery problem of src/code/DeliverySearch.java. Its moves
    differ from the backend's: a movement is offered whenever the traffic
    map has the neighbour as a key, whatever its level, and a level of zero
    makes the step cost +infinity. Its `fromStrings` mirrors every entry
    into both directions and drops zero levels, and its `path` runs the
    breadth-first-only engine of src/code/GenericSearch.java. */
module LegacyDelivery {
  import opened Wrappers
  import opened Costs
  import opened SearchModel
  import opened Grid
  import opened Tunnels
  import opened Actions
  import opened JavaText
  import opened Strategies
  import opened DeliveryInput
  import Delivery
  import LegacySearch
  import SearchDispatch

  // ------------------------------------------------------------------
  // The transition system

  /** The traffic map has an entry from `s` to `t`, of any level. */
  predicate HasEdge(traffic: Traffic, s: State, t: State) {
    s in traffic && t in traffic[s]
  }

  /** The movement `a` if `s` has an entry for the cell it leads to. */
  function MoveIfEdge(traffic: Traffic, s: State, a: Action): seq<Action>
    requires Delivery.IsMove(a)
  {
    if HasEdge(traffic, s, Delivery.Neighbour(s, a)) then [a] else []
  }

  /** `actions`: the movements with an entry, in the order UP, DOWN, LEFT,
      RIGHT, then TUNNEL once if some tunnel has `s` as an entrance. */
  function ActionsOf(traffic: Traffic, ts: seq<Tunnel>, s: State): seq<Action> {
    MoveIfEdge(traffic, s, Up) + MoveIfEdge(traffic, s, Down) + MoveIfEdge(traffic, s, Left)
    + MoveIfEdge(traffic, s, Right) + (if AtEntrance(ts, s) then [Action.Tunnel] else [])
  }

  /** `stepCost`: the Manhattan distance for TUNNEL; for a movement the
      traffic level when there is one and it is not zero, else +infinity. */
  function StepCostOf(traffic: Traffic, s: State, a: Action, t: State): Cost {
    if a == Action.Tunnel then Fin(Manhattan(t, s))
    else if HasEdge(traffic, s, t) && traffic[s][t] != 0 then Fin(traffic[s][t])
    else Inf
  }

  /** The problem with the start and goal of `setPath`. `result` is the
      backend's: a neighbour for a movement, the first tunnel's other end
      for TUNNEL, and `None` (the `IllegalStateException`) away from every
      entrance. */
  function ProblemOf(traffic: Traffic, ts: seq<Tunnel>, start: State, goal: State): Problem<State, Action> {
    Problem(start, s => s == goal, s => ActionsOf(traffic, ts, s),
            (s, a) => Delivery.ResultOf(ts, s, a), (s, a, t) => StepCostOf(traffic, s, a, t))
  }

  /** No entry has level zero. */
  predicate NoZero(traffic: Traffic) {
    forall s, t :: s in traffic && t in traffic[s] ==> traffic[s][t] != 0
  }

  /** Every entry has its reverse, at the same level. */
  predicate Symmetric(traffic: Traffic) {
    forall s, t :: s in traffic && t in traffic[s] ==> t in traffic && s in traffic[t] && traffic[t][s] == traffic[s][t]
  }

  // ------------------------------------------------------------------
  // What the transition system promises

  /** A movement is offered exactly when its entry exists, with no check
      of its level, and TUNNEL exactly at an entrance. */
  lemma ActionsOffered(traffic: Traffic, ts: seq<Tunnel>, s: State, a: Action)
    ensures Delivery.IsMove(a) ==> (a in ActionsOf(traffic, ts, s) <==> HasEdge(traffic, s, Delivery.Neighbour(s, a)))
    ensures a == Action.Tunnel ==> (a in ActionsOf(traffic, ts, s) <==> AtEntrance(ts, s))
  {
  }

  /** The actions come in the order UP, DOWN, LEFT, RIGHT, TUNNEL, each at
      most once; in particular TUNNEL is offered at most once. */
  lemma ActionsOrdered(traffic: Traffic, ts: seq<Tunnel>, s: State)
    ensures forall i, j :: 0 <= i < j < |ActionsOf(traffic, ts, s)| ==>
      Delivery.Rank(ActionsOf(traffic, ts, s)[i]) < Delivery.Rank(ActionsOf(traffic, ts, s)[j])
  {
    var u := MoveIfEdge(traffic, s, Up);
    var d := MoveIfEdge(traffic, s, Down);
    var l := MoveIfEdge(traffic, s, Left);
    var r := MoveIfEdge(traffic, s, Right);
    var t: seq<Action> := if AtEntrance(ts, s) then [Action.Tunnel] else [];
    var acts := ActionsOf(traffic, ts, s);
    assert acts == u + d + l + r + t;
    forall k | 0 <= k < |acts|
      ensures Delivery.Rank(acts[k]) == (if k < |u| then 0 else if k < |u + d| then 1 else if k < |u + d + l| then 2
                                         else if k < |u + d + l + r| then 3 else 4)
    {
    }
  }

  /** A movement costs its level exactly when its entry exists and is not
      zero, otherwise +infinity. A negative level is kept as it is. */
  lemma MoveCost(traffic: Traffic, s: State, a: Action, t: State)
    requires Delivery.IsMove(a)
    ensures StepCostOf(traffic, s, a, t).Fin? <==> HasEdge(traffic, s, t) && traffic[s][t] != 0
    ensures StepCostOf(traffic, s, a, t).Fin? ==> StepCostOf(traffic, s, a, t) == Fin(traffic[s][t])
  {
  }

  /** TUNNEL leads to the other end of the first tunnel in list order with
      entrance `s` (its `to` when `s` is its `from`, else its `from`), at that
      tunnel's cost; away from every entrance it has no result. */
  lemma TunnelStep(traffic: Traffic, ts: seq<Tunnel>, s: State)
    ensures Delivery.ResultOf(ts, s, Action.Tunnel).Some? <==> AtEntrance(ts, s)
    ensures AtEntrance(ts, s) ==>
      exists i :: (FirstEntrance(ts, s, i) && Delivery.ResultOf(ts, s, Action.Tunnel) == OtherEnd(ts[i], s)
        && StepCostOf(traffic, s, Action.Tunnel, OtherEnd(ts[i], s).value) == Fin(TunnelCost(ts[i])))
  {
    if AtEntrance(ts, s) {
      var r := FirstOtherEnd(ts, s);
      assert r.Some?;
      var i :| 0 <= i < |ts| && FirstEntrance(ts, s, i) && r == OtherEnd(ts[i], s);
      CostIsDistance(ts[i], s);
      ManhattanSymmetric(s, r.value);
      assert StepCostOf(traffic, s, Action.Tunnel, r.value) == Fin(TunnelCost(ts[i]));
    }
  }

  /** One offered step stays among the keys' destinations, the start and
      the tunnel ends; without zero levels its cost is finite. */
  lemma OfferedStep(traffic: Traffic, ts: seq<Tunnel>, start: State, s: State, a: Action)
    requires a in ActionsOf(traffic, ts, s)
    ensures Delivery.ResultOf(ts, s, a).Some? && Delivery.ResultOf(ts, s, a).value in Delivery.UniverseOf(traffic, ts, start)
    ensures NoZero(traffic) ==> StepCostOf(traffic, s, a, Delivery.ResultOf(ts, s, a).value).Fin?
  {
    ActionsOffered(traffic, ts, s, a);
    if a == Action.Tunnel {
      FirstOtherEndCost(ts, s);
    } else {
      var t := Delivery.Neighbour(s, a);
      assert t in Delivery.Destinations(traffic);
    }
  }

  /** The problem is closed over the backend's universe, and without zero
      levels every offered step has a finite cost. */
  lemma WellFormed(traffic: Traffic, ts: seq<Tunnel>, start: State, goal: State)
    ensures var P := ProblemOf(traffic, ts, start, goal);
      var U := Delivery.UniverseOf(traffic, ts, start);
      && P.initial in U && Closed(P, U) && (NoZero(traffic) ==> FiniteSteps(P, U))
  {
    forall s, a | a in ActionsOf(traffic, ts, s)
      ensures Delivery.ResultOf(ts, s, a).Some? && Delivery.ResultOf(ts, s, a).value in Delivery.UniverseOf(traffic, ts, start)
      ensures NoZero(traffic) ==> StepCostOf(traffic, s, a, Delivery.ResultOf(ts, s, a).value).Fin?
    {
      OfferedStep(traffic, ts, start, s, a);
    }
  }

  // ------------------------------------------------------------------
  // The inner Manhattan heuristic

  /** The private `ManhattanHeuristic` of the older class: `setGoal`
      records the goal only; `h` is 0 without a goal (the Java `null`). */
  class LegacyManhattan {
    var goal: Option<State>

    constructor()
      ensures goal == None
    {
      goal := None;
    }

    method SetGoal(g: State, ts: seq<Tunnel>)
      modifies this
      ensures goal == Some(g)
    {
      goal := Some(g);
    }

    /** `h`: 0 without a goal, else `|x - gx| + |y - gy|`, which is zero
        exactly at the goal. */
    function H(s: State): (r: nat)
      reads this
      ensures goal.None? ==> r == 0
      ensures goal.Some? ==> r == Manhattan(s, goal.value) && (r == 0 <==> s == goal.value)
    {
      if goal.None? then 0
      else
        ManhattanZero(s, goal.value);
        Abs(s.x - goal.value.x) + Abs(s.y - goal.value.y)
    }

    /** Once a goal is set, one movement changes `h` by exactly one. */
    lemma MoveChangesHByOne(s: State, a: Action)
      requires goal.Some? && Delivery.IsMove(a)
      ensures H(Delivery.Neighbour(s, a)) == H(s) + 1 || H(Delivery.Neighbour(s, a)) == H(s) - 1
    {
      Delivery.MoveChangesDistanceByOne(s, goal.value, a);
    }
  }

  // ------------------------------------------------------------------
  // The class

  /** The older `DeliverySearch`: the parsed grid, the Manhattan heuristic
      `h1`, and the start and goal of the current search. */
  class LegacyDeliverySearch {
    const m: int
    const n: int
    const traffic: Traffic
    const tunnels: seq<Tunnel>
    const stores: seq<State>
    const customers: seq<State>
    const trucks: seq<State>
    const h1: LegacyManhattan
    var start: Option<State>
    var goal: Option<State>

    constructor(c: Config, h1: LegacyManhattan)
      ensures m == c.m && n == c.n && traffic == c.traffic && tunnels == c.tunnels
      ensures stores == c.stores && customers == c.customers && trucks == c.trucks
      ensures this.h1 == h1 && start == None && goal == None
    {
      m := c.m;
      n := c.n;
      traffic := c.traffic;
      tunnels := c.tunnels;
      stores := c.stores;
      customers := c.customers;
      trucks := c.trucks;
      this.h1 := h1;
      start := None;
      goal := None;
    }

    /** `setPath`: record the start and goal and aim `h1` at the goal. */
    method SetPath(s: State, g: State)
      modifies this, h1
      ensures start == Some(s) && goal == Some(g) && h1.goal == Some(g)
    {
      start := Some(s);
      goal := Some(g);
      h1.SetGoal(g, tunnels);
    }

    /** `isGoal`: equality with the goal; nothing is a goal before `setPath`. */
    predicate IsGoal(s: State)
      reads this
    {
      goal == Some(s)
    }

    /** `actions`, with its key lookups and the tunnel loop that stops at
        the first entrance. */
    method ActionsAt(s: State) returns (acts: seq<Action>)
      ensures acts == ActionsOf(traffic, tunnels, s)
    {
      acts := [];
      if s in traffic {
        var neighbors := traffic[s];
        if State(s.x - 1, s.y) in neighbors {
          acts := acts + [Up];
        }
        if State(s.x + 1, s.y) in neighbors {
          acts := acts + [Down];
        }
        if State(s.x, s.y - 1) in neighbors {
          acts := acts + [Left];
        }
        if State(s.x, s.y + 1) in neighbors {
          acts := acts + [Right];
        }
      }
      assert acts == MoveIfEdge(traffic, s, Up) + MoveIfEdge(traffic, s, Down)
                     + MoveIfEdge(traffic, s, Left) + MoveIfEdge(traffic, s, Right);
      var i := 0;
      while i < |tunnels|
        invariant 0 <= i <= |tunnels|
        invariant forall j :: 0 <= j < i ==> !IsEntrance(tunnels[j], s)
      {
        if IsEntrance(tunnels[i], s) {
          acts := acts + [Action.Tunnel];
          return;
        }
        i := i + 1;
      }
    }

    /** `result`, with the tunnel loop that returns from the first tunnel
        having `s` as its `from` or its `to`; `None` where the Java code
        throws. */
    method ResultAt(s: State, a: Action) returns (r: Option<State>)
      ensures r == Delivery.ResultOf(tunnels, s, a)
    {
      if a != Action.Tunnel {
        return Some(Delivery.Neighbour(s, a));
      }
      var i := 0;
      while i < |tunnels|
        invariant 0 <= i <= |tunnels|
        invariant FirstOtherEnd(tunnels, s) == FirstOtherEnd(tunnels[i..], s)
      {
        assert tunnels[i..][1..] == tunnels[i + 1..];
        if s == tunnels[i].from {
          return Some(tunnels[i].to);
        }
        if s == tunnels[i].to {
          return Some(tunnels[i].from);
        }
        i := i + 1;
      }
      assert tunnels[i..] == [];
      return None;
    }
  }

  // ------------------------------------------------------------------
  // The static path

  /** What the older `path` promises about a breadth-first search from
      `s` to `g`: the failure result or a plan to the goal at its cost, and
      the failure result exactly when the goal is unreachable. */
  ghost predicate Promised(traffic: Traffic, ts: seq<Tunnel>, s: State, g: State, r: SearchResult<Action>) {
    var P := ProblemOf(traffic, ts, s, g);
    Outcome(P, r) && (NoPath(r) <==> !GoalReachable(P))
  }

  /** Without zero levels a promised result costs +infinity, and its text is
      `"no path;0;0"`, exactly when the goal is unreachable. */
  lemma PromisedCost(traffic: Traffic, ts: seq<Tunnel>, s: State, g: State, r: SearchResult<Action>)
    requires Promised(traffic, ts, s, g, r) && NoZero(traffic)
    ensures r.cost.Inf? <==> !GoalReachable(ProblemOf(traffic, ts, s, g))
    ensures Delivery.PathText(r) == Delivery.NoPathText <==> !GoalReachable(ProblemOf(traffic, ts, s, g))
  {
    var P := ProblemOf(traffic, ts, s, g);
    WellFormed(traffic, ts, s, g);
    SearchDispatch.InfiniteMeansNoPath(P, Delivery.UniverseOf(traffic, ts, s), r);
    Delivery.NoPathExactly(r);
  }

  /** The static `path`: aim the problem at `g` from `s` and run the
      breadth-first search, which is all the older engine has; any other
      strategy is its `UnsupportedOperationException`, a failure. */
  method Path(ds: LegacyDeliverySearch, s: State, g: State, x: Strategy) returns (r: Result<SearchResult<Action>>, out: string)
    modifies ds, ds.h1
    ensures ds.start == Some(s) && ds.goal == Some(g) && ds.h1.goal == Some(g)
    ensures r.Success? <==> x == BF
    ensures r.Success? ==> Promised(ds.traffic, ds.tunnels, s, g, r.value) && out == Delivery.PathText(r.value)
  {
    ds.SetPath(s, g);
    var P := ProblemOf(ds.traffic, ds.tunnels, s, g);
    WellFormed(ds.traffic, ds.tunnels, s, g);
    r := LegacySearch.Search(P, Delivery.UniverseOf(ds.traffic, ds.tunnels, s), x);
    out := if r.Success? then Delivery.PathText(r.value) else "";
  }

  // ------------------------------------------------------------------
  // fromStrings

  /** The customers of the `x1,y1,x2,y2,...` field: every field must be an
      integer and their number even, or the loop throws. */
  function CustomersOf(fields: seq<string>): (r: Result<seq<State>>)
    ensures r.Success? ==> 2 * |r.value| == |fields|
  {
    if |fields| % 2 == 0 && AllParse(fields, 0, |fields|) then
      Success(seq(|fields| / 2, j requires 0 <= j < |fields| / 2 =>
        State(ParseInt(fields[2 * j]).value, ParseInt(fields[2 * j + 1]).value)))
    else
      Failure(BadInput)
  }

  /** The customer loop: `for (i = 0; i < custStr.length; i += 2)`. */
  method ParseCustomers(fields: seq<string>) returns (r: Result<seq<State>>)
    ensures r == CustomersOf(fields)
  {
    var customers: seq<State> := [];
    var i := 0;
    while i < |fields|
      invariant i % 2 == 0 && i <= |fields|
      invariant AllParse(fields, 0, i)
      invariant |customers| == i / 2
      invariant forall j :: 0 <= j < i / 2 ==>
        customers[j] == State(ParseInt(fields[2 * j]).value, ParseInt(fields[2 * j + 1]).value)
    {
      var x := ParseInt(fields[i]);
      if x.Failure? || i + 1 >= |fields| {
        return Failure(BadInput);
      }
      var y := ParseInt(fields[i + 1]);
      if y.Failure? {
        return Failure(BadInput);
      }
      customers := customers + [State(x.value, y.value)];
      i := i + 2;
    }
    r := Success(customers);
    assert CustomersOf(fields).value == customers;
  }

  /** Writing states with `Integer.toString` and parsing them back gives them back. */
  lemma CustomersRoundTrip(cs: seq<State>)
    requires InRange(cs)
    ensures CustomersOf(CoordinateFields(cs)) == Success(cs)
  {
    var f := CoordinateFields(cs);
    forall i | 0 <= i < |f|
      ensures ParseInt(f[i]).Success?
    {
      var j := Halve(i);
      CoordinatesParse(cs, j);
    }
    var r := CustomersOf(f).value;
    forall j | 0 <= j < |cs|
      ensures r[j] == cs[j]
    {
      CoordinatesParse(cs, j);
    }
    assert r == cs;
  }

  /** The tunnels of the `x1,y1,x2,y2,...` field: every field must be an
      integer and their number a multiple of four, or the loop throws. */
  function TunnelsOf(fields: seq<string>): (r: Result<seq<Tunnel>>)
    ensures r.Success? ==> 4 * |r.value| == |fields|
  {
    if |fields| % 4 == 0 && AllParse(fields, 0, |fields|) then
      Success(seq(|fields| / 4, j requires 0 <= j < |fields| / 4 =>
        Tunnel.Tunnel(State(ParseInt(fields[4 * j]).value, ParseInt(fields[4 * j + 1]).value),
               State(ParseInt(fields[4 * j + 2]).value, ParseInt(fields[4 * j + 3]).value))))
    else
      Failure(BadInput)
  }

  /** The tunnel loop: `for (i = 0; i < tunnelStr.length; i += 4)`. */
  method ParseTunnels(fields: seq<string>) returns (r: Result<seq<Tunnel>>)
    ensures r == TunnelsOf(fields)
  {
    var tunnels: seq<Tunnel> := [];
    var i := 0;
    while i < |fields|
      invariant i % 4 == 0 && i <= |fields|
      invariant AllParse(fields, 0, i)
      invariant |tunnels| == i / 4
      invariant forall j :: 0 <= j < i / 4 ==>
        tunnels[j] == Tunnel.Tunnel(State(ParseInt(fields[4 * j]).value, ParseInt(fields[4 * j + 1]).value),
                             State(ParseInt(fields[4 * j + 2]).value, ParseInt(fields[4 * j + 3]).value))
    {
      if i + 3 >= |fields| || !AllParse(fields, i, i + 4) {
        return Failure(BadInput);
      }
      var x1 := ParseInt(fields[i]).value;
      var y1 := ParseInt(fields[i + 1]).value;
      var x2 := ParseInt(fields[i + 2]).value;
      var y2 := ParseInt(fields[i + 3]).value;
      tunnels := tunnels + [Tunnel.Tunnel(State(x1, y1), State(x2, y2))];
      i := i + 4;
    }
    r := Success(tunnels);
    assert TunnelsOf(fields).value == tunnels;
  }

  /** One traffic entry `x1,y1,x2,y2,t`: its first five fields must be
      integers; `None` for a level of zero, which is skipped. */
  function EntryOf(entry: string): Result<Option<(State, State, int)>> {
    var e := Split(entry, ',');
    if |e| < 5 || !AllParse(e, 0, 5) then Failure(BadInput)
    else if ParseInt(e[4]).value == 0 then Success(None)
    else
      Success(Some((State(ParseInt(e[0]).value, ParseInt(e[1]).value),
                    State(ParseInt(e[2]).value, ParseInt(e[3]).value),
                    ParseInt(e[4]).value)))
  }

  /** The traffic of the first `k` entries: every kept entry sets its
      level in both directions. */
  function MirroredOf(entries: seq<string>, k: nat): Result<Traffic>
    requires k <= |entries|
    decreases k
  {
    if k == 0 then Success(map[])
    else
      match MirroredOf(entries, k - 1)
      case Failure(e) => Failure(e)
      case Success(t) =>
        match EntryOf(entries[k - 1])
        case Failure(e) => Failure(e)
        case Success(None) => Success(t)
        case Success(Some(edge)) => Success(Put(Put(t, edge.0, edge.1, edge.2), edge.1, edge.0, edge.2))
  }

  /** The body of the traffic loop for one entry. */
  method ParseEntry(entry: string) returns (r: Result<Option<(State, State, int)>>)
    ensures r == EntryOf(entry)
  {
    var e := Split(entry, ',');
    if |e| < 5 {
      return Failure(BadInput);
    }
    var sx := ParseInt(e[0]);
    var sy := ParseInt(e[1]);
    var dx := ParseInt(e[2]);
    var dy := ParseInt(e[3]);
    var t := ParseInt(e[4]);
    if sx.Failure? || sy.Failure? || dx.Failure? || dy.Failure? || t.Failure? {
      assert !AllParse(e, 0, 5);
      return Failure(BadInput);
    }
    assert AllParse(e, 0, 5);
    if t.value == 0 {
      return Success(None);
    }
    return Success(Some((State(sx.value, sy.value), State(dx.value, dy.value), t.value)));
  }

  /** One more entry of the traffic loop. */
  lemma MirroredNext(entries: seq<string>, i: nat, t: Traffic)
    requires i < |entries| && MirroredOf(entries, i) == Success(t)
    ensures EntryOf(entries[i]).Failure? ==> MirroredOf(entries, i + 1).Failure?
    ensures EntryOf(entries[i]) == Success(None) ==> MirroredOf(entries, i + 1) == Success(t)
    ensures EntryOf(entries[i]).Success? && EntryOf(entries[i]).value.Some? ==>
      var edge := EntryOf(entries[i]).value.value;
      MirroredOf(entries, i + 1) == Success(Put(Put(t, edge.0, edge.1, edge.2), edge.1, edge.0, edge.2))
  {
  }

  /** The traffic loop over `trafficStr.split(";")`. */
  method ParseMirrored(entries: seq<string>) returns (r: Result<Traffic>)
    ensures r == MirroredOf(entries, |entries|)
  {
    var edgeTraffic: Traffic := map[];
    for i := 0 to |entries|
      invariant MirroredOf(entries, i) == Success(edgeTraffic)
    {
      var next := MirrorEntry(entries, i, edgeTraffic);
      if next.Failure? {
        return next;
      }
      edgeTraffic := next.value;
    }
    return Success(edgeTraffic);
  }

  /** The body of the traffic loop: parse entry `i` and, unless its level
      is zero, set the level from `from` to `to` and from `to` to `from`. */
  method MirrorEntry(entries: seq<string>, i: nat, edgeTraffic: Traffic) returns (r: Result<Traffic>)
    requires i < |entries| && MirroredOf(entries, i) == Success(edgeTraffic)
    ensures r.Success? ==> r == MirroredOf(entries, i + 1)
    ensures r.Failure? ==> r == MirroredOf(entries, |entries|) == Failure(BadInput)
  {
    var edge := ParseEntry(entries[i]);
    MirroredNext(entries, i, edgeTraffic);
    if edge.Failure? {
      MirroredFailureStays(entries, i + 1, |entries|);
      return Failure(BadInput);
    }
    if edge.value.None? {
      return Success(edgeTraffic);
    }
    var (from, to, t) := edge.value.value;
    return Success(Put(Put(edgeTraffic, from, to, t), to, from, t));
  }

  /** Once an entry is malformed, the whole input is. */
  lemma {:induction false} MirroredFailureStays(entries: seq<string>, k: nat, k': nat)
    requires k <= k' <= |entries| && MirroredOf(entries, k).Failure?
    ensures MirroredOf(entries, k') == Failure(BadInput)
    decreases k'
  {
    if k' > k {
      MirroredFailureStays(entries, k, k' - 1);
    } else {
      MirroredFailureIsBad(entries, k);
    }
  }

  lemma {:induction false} MirroredFailureIsBad(entries: seq<string>, k: nat)
    requires k <= |entries| && MirroredOf(entries, k).Failure?
    ensures MirroredOf(entries, k) == Failure(BadInput)
    decreases k
  {
    if MirroredOf(entries, k - 1).Failure? {
      MirroredFailureIsBad(entries, k - 1);
    }
  }

  /** Setting a level in both directions keeps a map symmetric and free of
      zero levels. */
  lemma MirrorKeeps(t: Traffic, from: State, to: State, c: int)
    requires Symmetric(t) && NoZero(t) && c != 0
    ensures Symmetric(Put(Put(t, from, to, c), to, from, c)) && NoZero(Put(Put(t, from, to, c), to, from, c))
  {
    var t1 := Put(t, from, to, c);
    var t2 := Put(t1, to, from, c);
    forall s, u | s in t2 && u in t2[s]
      ensures u in t2 && s in t2[u] && t2[u][s] == t2[s][u] && t2[s][u] != 0
    {
      if (s, u) != (to, from) && (s, u) != (from, to) {
        assert s in t && u in t[s];
        assert t2[s][u] == t[s][u];
        assert t2[u][s] == t[u][s];
      }
    }
  }

  /** The mirrored traffic is symmetric and has no zero level. */
  lemma {:induction false} MirroredShape(entries: seq<string>, k: nat)
    requires k <= |entries| && MirroredOf(entries, k).Success?
    ensures Symmetric(MirroredOf(entries, k).value) && NoZero(MirroredOf(entries, k).value)
    decreases k
  {
    if k > 0 {
      MirroredShape(entries, k - 1);
      var edge := EntryOf(entries[k - 1]);
      if edge.value.Some? {
        var (from, to, c) := edge.value.value;
        MirrorKeeps(MirroredOf(entries, k - 1).value, from, to, c);
      }
    }
  }

  /** Entry `i` sets the level between `a` and `b`, in one direction or the other. */
  predicate Links(entries: seq<string>, i: nat, a: State, b: State)
    requires i < |entries|
  {
    EntryOf(entries[i]).Success? && EntryOf(entries[i]).value.Some?
    && var (from, to, _) := EntryOf(entries[i]).value.value;
      (from == a && to == b) || (from == b && to == a)
  }

  /** A pair has a level only if some kept entry links it. */
  lemma {:induction false} MirroredFromEntries(entries: seq<string>, k: nat, a: State, b: State)
    requires k <= |entries| && MirroredOf(entries, k).Success?
    requires a in MirroredOf(entries, k).value && b in MirroredOf(entries, k).value[a]
    ensures exists i :: 0 <= i < k && Links(entries, i, a, b)
    decreases k
  {
    var t := MirroredOf(entries, k - 1).value;
    if Links(entries, k - 1, a, b) {
    } else {
      var edge := EntryOf(entries[k - 1]);
      if edge.value.Some? {
        var (from, to, c) := edge.value.value;
        var t1 := Put(t, from, to, c);
        assert a in t1 && b in t1[a];
      }
      assert a in t && b in t[a];
      MirroredFromEntries(entries, k - 1, a, b);
      var i :| 0 <= i < k - 1 && Links(entries, i, a, b);
      assert 0 <= i < k;
    }
  }

  /** An entry of level zero changes nothing. */
  lemma ZeroEntrySkipped(entries: seq<string>, k: nat)
    requires k < |entries| && EntryOf(entries[k]) == Success(None)
    ensures MirroredOf(entries, k + 1) == MirroredOf(entries, k)
  {
  }

  // ------------------------------------------------------------------
  // The whole input

  /** `fromStrings`: `m`, `n`, `P` and `S` must be integers and the
      customers field must be there (`parts[4]` is read unconditionally);
      the tunnels field is read when there is one. The trucks start as a
      copy of the stores. */
  function ConfigOf(initial: string, trafficStr: string): (r: Result<Config>)
    ensures r.Success? ==> r.value.trucks == r.value.stores && |r.value.stores| <= 3
  {
    var parts := Split(initial, ';');
    if |parts| < 5 || !AllParse(parts, 0, 4) then Failure(BadInput)
    else
      var m := ParseInt(parts[0]).value;
      var n := ParseInt(parts[1]).value;
      var S := ParseInt(parts[3]).value;
      var customers := CustomersOf(Split(parts[4], ','));
      var tunnels := if |parts| > 5 then TunnelsOf(Split(parts[5], ',')) else Success([]);
      var entries := Split(trafficStr, ';');
      var traffic := MirroredOf(entries, |entries|);
      if customers.Failure? || tunnels.Failure? || traffic.Failure? then Failure(BadInput)
      else
        var stores := StoresOf(m, n, S);
        Success(Config(m, n, traffic.value, tunnels.value, stores, customers.value, stores))
  }

  /** The parsing part of `fromStrings`, field by field. */
  method ParseConfig(initial: string, trafficStr: string) returns (r: Result<Config>)
    ensures r == ConfigOf(initial, trafficStr)
  {
    var parts := Split(initial, ';');
    if |parts| < 4 {
      return Failure(BadInput);
    }
    var m := ParseInt(parts[0]);
    var n := ParseInt(parts[1]);
    var P := ParseInt(parts[2]);
    var S := ParseInt(parts[3]);
    if m.Failure? || n.Failure? || P.Failure? || S.Failure? || |parts| < 5 {
      return Failure(BadInput);
    }
    assert AllParse(parts, 0, 4);
    var customers := ParseCustomers(Split(parts[4], ','));
    if customers.Failure? {
      return Failure(BadInput);
    }
    var tunnels: seq<Tunnel> := [];
    if |parts| > 5 {
      var ts := ParseTunnels(Split(parts[5], ','));
      if ts.Failure? {
        return Failure(BadInput);
      }
      tunnels := ts.value;
    }
    var traffic := ParseMirrored(Split(trafficStr, ';'));
    if traffic.Failure? {
      return Failure(BadInput);
    }
    var stores := StoresOf(m.value, n.value, S.value);
    return Success(Config(m.value, n.value, traffic.value, tunnels, stores, customers.value, stores));
  }

  /** A parsed input has a symmetric traffic map without zero levels, so
      every search on it answers `"no path;0;0"` exactly when its goal is
      unreachable. */
  lemma ConfigTraffic(initial: string, trafficStr: string)
    requires ConfigOf(initial, trafficStr).Success?
    ensures Symmetric(ConfigOf(initial, trafficStr).value.traffic) && NoZero(ConfigOf(initial, trafficStr).value.traffic)
  {
    var entries := Split(trafficStr, ';');
    MirroredShape(entries, |entries|);
  }

  /** Without a customers field, or with an empty one, the input is
      rejected. */
  lemma NoCustomersRejected(initial: string, trafficStr: string)
    requires var parts := Split(initial, ';'); |parts| < 5 || parts[4] == ""
    ensures ConfigOf(initial, trafficStr).Failure?
  {
    var parts := Split(initial, ';');
    if |parts| >= 5 {
      OneField("", ',');
      assert Split("", ',') == [""];
      assert ParseInt("").Failure?;
    }
  }

  /** `fromStrings`: parse the input and build the problem with a fresh
      Manhattan heuristic. */
  method FromStrings(initial: string, trafficStr: string) returns (r: Result<LegacyDeliverySearch>)
    ensures r.Success? <==> ConfigOf(initial, trafficStr).Success?
    ensures r.Success? ==> fresh(r.value) && fresh(r.value.h1)
    ensures r.Success? ==> var c := ConfigOf(initial, trafficStr).value;
      && r.value.m == c.m && r.value.n == c.n && r.value.traffic == c.traffic && r.value.tunnels == c.tunnels
      && r.value.stores == c.stores && r.value.customers == c.customers && r.value.trucks == c.trucks
      && r.value.start == None && r.value.goal == None
  {
    var c := ParseConfig(initial, trafficStr);
    if c.Failure? {
      return Failure(c.error);
    }
    var h1 := new LegacyManhattan();
    var ds := new LegacyDeliverySearch(c.value, h1);
    return Success(ds);
  }
}
