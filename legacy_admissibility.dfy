/** Whether the traffic-aware estimate of src/code/TrafficAwareHeuristic.java
    is admissible on the older delivery problem. Its doc comment argues that
    every walking leg costs at least `minTraffic` per step and every tunnel
    its Manhattan length, so no component is overestimated. The argument
    misses plans that chain tunnels: the leg from a tunnel's exit to the goal
    is scaled by `minTraffic`, but that leg may itself take another tunnel at
    its unscaled length. `ChainedTunnelsOverestimate` exhibits such a grid.
    `CorrectedH` keeps the scaled walk to the first tunnel end and bounds
    everything after it by the plain Manhattan distance; it is admissible
    (`CorrectedAdmissible`) and lies between the Manhattan distance and the
    estimate as written (`CorrectedBetween`). */
module LegacyAdmissibility {
  import opened Wrappers
  import opened Costs
  import opened SearchModel
  import opened Grid
  import opened Tunnels
  import opened Actions
  import opened DeliveryInput
  import opened LegacyHeuristic
  import opened InformedSearch
  import opened GridDistance
  import Delivery
  import LegacyDelivery

  /** The premise of the doc comment: every level is at least `m`. */
  predicate LevelsAtLeast(traffic: Traffic, m: int) {
    forall s, t :: s in traffic && t in traffic[s] ==> traffic[s][t] >= m
  }

  // ------------------------------------------------------------------
  // The estimate as written overestimates through chained tunnels

  /** Two tunnels along the x axis, joined by one road of level 2 in both
      directions. */
  const ChainTunnels: seq<Tunnel> := [Tunnel.Tunnel(State(0, 0), State(10, 0)), Tunnel.Tunnel(State(11, 0), State(21, 0))]
  const ChainTraffic: Traffic := map[State(10, 0) := map[State(11, 0) := 2], State(11, 0) := map[State(10, 0) := 2]]

  function ChainProblem(): Problem<State, Action> {
    LegacyDelivery.ProblemOf(ChainTraffic, ChainTunnels, State(0, 0), State(21, 0))
  }

  /** TUNNEL from the entrance of the first tunnel of the list. */
  lemma FirstTunnelStep(ts: seq<Tunnel>, s: State)
    requires |ts| >= 1 && IsEntrance(ts[0], s)
    ensures FirstOtherEnd(ts, s) == OtherEnd(ts[0], s)
  {
  }

  /** TUNNEL from an entrance of the second tunnel that is not one of the first. */
  lemma SecondTunnelStep(ts: seq<Tunnel>, s: State)
    requires |ts| >= 2 && !IsEntrance(ts[0], s) && IsEntrance(ts[1], s)
    ensures FirstOtherEnd(ts, s) == OtherEnd(ts[1], s)
  {
    assert ts[1..][0] == ts[1];
  }

  /** One TUNNEL step of the older problem that leads to `t`, further
      along the same row. */
  lemma TunnelStepTo(traffic: Traffic, ts: seq<Tunnel>, start: State, g: State, s: State, c: Cost, t: State)
    requires FirstOtherEnd(ts, s) == Some(t) && s.y == t.y && s.x <= t.x
    ensures Step(LegacyDelivery.ProblemOf(traffic, ts, start, g), Arrival(s, c), Action.Tunnel)
         == Some(Arrival(t, Add(c, Fin(t.x - s.x))))
  {
    var P := LegacyDelivery.ProblemOf(traffic, ts, start, g);
    TunnelOffered(traffic, ts, s, t);
    AlongRow(s, t);
    assert P.result(s, Action.Tunnel) == Some(t);
    assert P.stepCost(s, Action.Tunnel, t) == Fin(t.x - s.x);
  }

  lemma TunnelOffered(traffic: Traffic, ts: seq<Tunnel>, s: State, t: State)
    requires FirstOtherEnd(ts, s) == Some(t)
    ensures Action.Tunnel in LegacyDelivery.ActionsOf(traffic, ts, s)
  {
    LegacyDelivery.ActionsOffered(traffic, ts, s, Action.Tunnel);
  }

  /** One movement of the older problem along an entry of level `v`. */
  lemma MoveStepTo(traffic: Traffic, ts: seq<Tunnel>, start: State, g: State, s: State, c: Cost, a: Action, v: int)
    requires Delivery.IsMove(a) && LegacyDelivery.HasEdge(traffic, s, Delivery.Neighbour(s, a))
    requires traffic[s][Delivery.Neighbour(s, a)] == v && v != 0
    ensures Step(LegacyDelivery.ProblemOf(traffic, ts, start, g), Arrival(s, c), a)
         == Some(Arrival(Delivery.Neighbour(s, a), Add(c, Fin(v))))
  {
    LegacyDelivery.ActionsOffered(traffic, ts, s, a);
  }

  lemma ChainFirstStep(traffic: Traffic, ts: seq<Tunnel>, start: State, g: State, e: State)
    requires traffic == ChainTraffic && ts == ChainTunnels && start == State(0, 0) && g == State(21, 0)
    requires e == State(10, 0)
    ensures Step(LegacyDelivery.ProblemOf(traffic, ts, start, g), Arrival(start, Fin(0)), Action.Tunnel)
         == Some(Arrival(e, Fin(10)))
  {
    FirstTunnelStep(ts, start);
    TunnelStepTo(traffic, ts, start, g, start, Fin(0), e);
  }

  lemma ChainSecondStep(traffic: Traffic, ts: seq<Tunnel>, start: State, g: State, e: State)
    requires traffic == ChainTraffic && ts == ChainTunnels && start == State(0, 0) && g == State(21, 0)
    requires e == State(10, 0)
    ensures Step(LegacyDelivery.ProblemOf(traffic, ts, start, g), Arrival(e, Fin(10)), Down)
         == Some(Arrival(State(11, 0), Fin(12)))
  {
    assert Delivery.Neighbour(e, Down) == State(11, 0);
    MoveStepTo(traffic, ts, start, g, e, Fin(10), Down, 2);
  }

  lemma ChainThirdStep(traffic: Traffic, ts: seq<Tunnel>, start: State, g: State, e: State)
    requires traffic == ChainTraffic && ts == ChainTunnels && start == State(0, 0) && g == State(21, 0)
    requires e == State(11, 0)
    ensures Step(LegacyDelivery.ProblemOf(traffic, ts, start, g), Arrival(e, Fin(12)), Action.Tunnel)
         == Some(Arrival(g, Fin(22)))
  {
    SecondTunnelStep(ts, e);
    TunnelStepTo(traffic, ts, start, g, e, Fin(12), g);
  }

  /** The plan TUNNEL, DOWN, TUNNEL reaches the goal at cost 22. */
  lemma ChainPlan()
    ensures Run(ChainProblem(), Start(ChainProblem()), [Action.Tunnel, Down, Action.Tunnel]) == Some(Arrival(State(21, 0), Fin(22)))
  {
    var P := ChainProblem();
    var plan := [Action.Tunnel, Down, Action.Tunnel];
    ChainFirstStep(ChainTraffic, ChainTunnels, State(0, 0), State(21, 0), State(10, 0));
    ChainSecondStep(ChainTraffic, ChainTunnels, State(0, 0), State(21, 0), State(10, 0));
    ChainThirdStep(ChainTraffic, ChainTunnels, State(0, 0), State(21, 0), State(11, 0));
    assert plan[1..] == [Down, Action.Tunnel] && plan[1..][1..] == [Action.Tunnel] && plan[1..][1..][1..] == [];
    assert Run(P, Arrival(State(21, 0), Fin(22)), []) == Some(Arrival(State(21, 0), Fin(22)));
  }

  /** From the start the estimate at level 2 is 32: each tunnel's estimate
      is 10 for the tunnel plus 11 steps of walking at level 2. */
  lemma ChainEstimate()
    ensures LegacyH(Some(State(21, 0)), ChainTunnels, 2, State(0, 0)) == 32
  {
    TwoTunnelEstimate(ChainTunnels, State(0, 0), State(21, 0), 0, 10, 11, 21);
  }

  /** Two tunnels along the x axis, from cell `a` to cell `b` and from `c`
      to the goal `d`, seen from the origin at level 2. */
  lemma TwoTunnelEstimate(ts: seq<Tunnel>, s: State, g: State, a: int, b: int, c: int, d: int)
    requires 0 <= a <= b <= c <= d && s == State(0, 0) && g == State(d, 0)
    requires ts == [Tunnel.Tunnel(State(a, 0), State(b, 0)), Tunnel.Tunnel(State(c, 0), State(d, 0))]
    ensures LegacyH(Some(g), ts, 2, s) ==
      Smaller(Smaller(2 * d, Smaller(2 * a + (b - a) + 2 * (d - b), 2 * b + (b - a) + 2 * (d - a))),
              Smaller(2 * c + (d - c), 2 * d + (d - c) + 2 * (d - c)))
  {
    var ea, eb, ec := State(a, 0), State(b, 0), State(c, 0);
    AlongRow(s, ea);
    AlongRow(ea, eb);
    AlongRow(eb, g);
    AlongRow(s, eb);
    AlongRow(ea, g);
    AlongRow(s, ec);
    AlongRow(ec, g);
    AlongRow(s, g);
    AlongRow(g, g);
    assert Lowered(ts, 1, s, g, 2, 2 * d) == Smaller(2 * d, Smaller(ViaFrom(ts[0], s, g, 2), ViaTo(ts[0], s, g, 2)));
  }

  /** The distance between two cells of the same row. */
  lemma AlongRow(u: State, v: State)
    requires u.y == v.y && u.x <= v.x
    ensures Manhattan(u, v) == v.x - u.x && Manhattan(v, u) == v.x - u.x
  {
    AbsValue(u.x - v.x);
    AbsValue(v.x - u.x);
    AbsValue(u.y - v.y);
    AbsValue(v.y - u.y);
  }

  /** A plan from a state of the universe whose cost is below the estimate
      there refutes admissibility. */
  lemma OverestimateRefutes<S, A(!new)>(P: Problem<S, A>, h: S -> int, U: set<S>, s: S, plan: seq<A>)
    requires s in U && Run(P, Arrival(s, Fin(0)), plan).Some? && P.isGoal(Run(P, Arrival(s, Fin(0)), plan).value.state)
    requires !Le(Fin(h(s)), Run(P, Arrival(s, Fin(0)), plan).value.cost)
    ensures !Admissible(P, h, U)
  {
  }

  lemma ChainLevels()
    ensures LevelsAtLeast(ChainTraffic, 2)
  {
  }

  /** The plan solves the chained-tunnel problem at cost 22 and, from the
      start, refutes the admissibility of the estimate there. */
  lemma ChainRefutes()
    ensures Solves(ChainProblem(), [Action.Tunnel, Down, Action.Tunnel], Fin(22))
    ensures !Admissible(ChainProblem(), s => LegacyH(Some(State(21, 0)), ChainTunnels, 2, s),
                        Delivery.UniverseOf(ChainTraffic, ChainTunnels, State(0, 0)))
  {
    var P := ChainProblem();
    var s := State(0, 0);
    var plan := [Action.Tunnel, Down, Action.Tunnel];
    ChainPlan();
    ChainEstimate();
    assert Start(P) == Arrival(s, Fin(0));
    assert s in Delivery.UniverseOf(ChainTraffic, ChainTunnels, s);
    OverestimateRefutes(P, s => LegacyH(Some(State(21, 0)), ChainTunnels, 2, s),
                        Delivery.UniverseOf(ChainTraffic, ChainTunnels, s), s, plan);
  }

  /** The doc comment's premise holds on this grid (every level is 2, the
      minimum it is given), yet the estimate at the start is 32 while a plan
      reaches the goal at cost 22: the estimate is not admissible. */
  lemma ChainedTunnelsOverestimate()
    ensures LevelsAtLeast(ChainTraffic, 2) && Clamp(2) == 2
    ensures Solves(ChainProblem(), [Action.Tunnel, Down, Action.Tunnel], Fin(22))
    ensures LegacyH(Some(State(21, 0)), ChainTunnels, 2, State(0, 0)) == 32
    ensures !Admissible(ChainProblem(), s => LegacyH(Some(State(21, 0)), ChainTunnels, 2, s),
                        Delivery.UniverseOf(ChainTraffic, ChainTunnels, State(0, 0)))
  {
    ChainLevels();
    ChainEstimate();
    ChainRefutes();
  }

  // ------------------------------------------------------------------
  // The corrected estimate

  /** Walk from `s` to the tunnel end `e` at level `m`, then at least the
      Manhattan distance from `e` to the goal, whatever tunnels follow. */
  function ViaEnd(s: State, e: State, g: State, m: nat): nat {
    Manhattan(s, e) * m + Manhattan(e, g)
  }

  /** The running minimum over both ends of the first `n` tunnels. */
  function LoweredByEnds(ts: seq<Tunnel>, n: nat, s: State, g: State, m: nat, direct: nat): nat
    requires n <= |ts|
    decreases n
  {
    if n == 0 then direct
    else Smaller(LoweredByEnds(ts, n - 1, s, g, m, direct), Smaller(ViaEnd(s, ts[n - 1].from, g, m), ViaEnd(s, ts[n - 1].to, g, m)))
  }

  /** The estimate with the walk after the first tunnel end unscaled: 0
      without a goal, else the scaled direct distance lowered by every
      tunnel end. */
  function CorrectedH(goal: Option<State>, ts: seq<Tunnel>, m: nat, s: State): nat {
    if goal.None? then 0
    else LoweredByEnds(ts, |ts|, s, goal.value, m, Manhattan(s, goal.value) * m)
  }

  lemma {:induction false} ByEndsBelowDirect(ts: seq<Tunnel>, n: nat, s: State, g: State, m: nat, direct: nat)
    requires n <= |ts|
    ensures LoweredByEnds(ts, n, s, g, m, direct) <= direct
    decreases n
  {
    if n > 0 {
      ByEndsBelowDirect(ts, n - 1, s, g, m, direct);
    }
  }

  lemma {:induction false} ByEndsBelowEnd(ts: seq<Tunnel>, n: nat, s: State, g: State, m: nat, direct: nat, k: nat)
    requires k < n <= |ts|
    ensures LoweredByEnds(ts, n, s, g, m, direct) <= ViaEnd(s, ts[k].from, g, m)
    ensures LoweredByEnds(ts, n, s, g, m, direct) <= ViaEnd(s, ts[k].to, g, m)
    decreases n
  {
    if k < n - 1 {
      ByEndsBelowEnd(ts, n - 1, s, g, m, direct, k);
    }
  }

  /** The running minimum is one of the values it ranged over. */
  lemma {:induction false} ByEndsAttained(ts: seq<Tunnel>, n: nat, s: State, g: State, m: nat, direct: nat)
    requires n <= |ts|
    ensures var r := LoweredByEnds(ts, n, s, g, m, direct);
      r == direct || exists k :: 0 <= k < n && (r == ViaEnd(s, ts[k].from, g, m) || r == ViaEnd(s, ts[k].to, g, m))
    decreases n
  {
    if n > 0 {
      ByEndsAttained(ts, n - 1, s, g, m, direct);
    }
  }

  /** The corrected estimate is at most the scaled direct distance, and is
      attained there or at the estimate through some tunnel end. */
  lemma CorrectedAttained(g: State, ts: seq<Tunnel>, m: nat, s: State)
    ensures CorrectedH(Some(g), ts, m, s) <= Manhattan(s, g) * m
    ensures var r := CorrectedH(Some(g), ts, m, s);
      r == Manhattan(s, g) * m || exists k :: 0 <= k < |ts| && (r == ViaEnd(s, ts[k].from, g, m) || r == ViaEnd(s, ts[k].to, g, m))
  {
    ByEndsBelowDirect(ts, |ts|, s, g, m, Manhattan(s, g) * m);
    ByEndsAttained(ts, |ts|, s, g, m, Manhattan(s, g) * m);
  }

  /** The corrected estimate is at most the estimate through either end of
      every tunnel. */
  lemma CorrectedBelowEnd(g: State, ts: seq<Tunnel>, m: nat, s: State, k: nat)
    requires k < |ts|
    ensures CorrectedH(Some(g), ts, m, s) <= ViaEnd(s, ts[k].from, g, m)
    ensures CorrectedH(Some(g), ts, m, s) <= ViaEnd(s, ts[k].to, g, m)
  {
    ByEndsBelowEnd(ts, |ts|, s, g, m, Manhattan(s, g) * m, k);
  }

  /** Scaling by `m` is monotone. */
  lemma ScaleMonotone(a: nat, b: nat, m: nat)
    requires a <= b
    ensures a * m <= b * m
  {
  }

  /** One step to a neighbour shortens a scaled distance by at most `m`. */
  lemma ScaledStep(s: State, t: State, e: State, m: nat)
    requires Manhattan(s, t) == 1
    ensures Manhattan(s, e) * m <= m + Manhattan(t, e) * m
  {
    ManhattanTriangle(s, t, e);
    ScaleOneMore(Manhattan(s, e), Manhattan(t, e), m);
  }

  lemma ScaleOneMore(a: nat, b: nat, m: nat)
    requires a <= b + 1
    ensures a * m <= m + b * m
  {
    ScaleMonotone(a, b + 1, m);
  }

  /** At level `m >= 1` a scaled distance is at least the distance. */
  lemma ScaledAtLeast(a: nat, m: nat)
    requires m >= 1
    ensures a <= a * m
  {
    ScaleMonotone(1, m, a);
  }

  /** At a tunnel end the corrected estimate is at most the Manhattan distance. */
  lemma CorrectedAtEnd(g: State, ts: seq<Tunnel>, m: nat, s: State)
    requires AtEntrance(ts, s)
    ensures CorrectedH(Some(g), ts, m, s) <= Manhattan(s, g)
  {
    var k :| 0 <= k < |ts| && IsEntrance(ts[k], s);
    CorrectedBelowEnd(g, ts, m, s, k);
    ManhattanZero(s, s);
  }

  /** One step to a neighbouring cell lowers the corrected estimate by at most `m`. */
  lemma CorrectedMove(g: State, ts: seq<Tunnel>, m: nat, s: State, t: State)
    requires Manhattan(s, t) == 1
    ensures CorrectedH(Some(g), ts, m, s) <= m + CorrectedH(Some(g), ts, m, t)
  {
    CorrectedAttained(g, ts, m, t);
    var r := CorrectedH(Some(g), ts, m, t);
    if r == Manhattan(t, g) * m {
      CorrectedAttained(g, ts, m, s);
      ScaledStep(s, t, g, m);
    } else {
      var k :| 0 <= k < |ts| && (r == ViaEnd(t, ts[k].from, g, m) || r == ViaEnd(t, ts[k].to, g, m));
      var e := if r == ViaEnd(t, ts[k].from, g, m) then ts[k].from else ts[k].to;
      CorrectedBelowEnd(g, ts, m, s, k);
      ScaledStep(s, t, e, m);
    }
  }

  /** At level `m >= 1` the corrected estimate is at least the Manhattan distance. */
  lemma CorrectedAboveManhattan(g: State, ts: seq<Tunnel>, m: nat, s: State)
    requires m >= 1
    ensures Manhattan(s, g) <= CorrectedH(Some(g), ts, m, s)
  {
    CorrectedAttained(g, ts, m, s);
    var r := CorrectedH(Some(g), ts, m, s);
    if r == Manhattan(s, g) * m {
      ScaledAtLeast(Manhattan(s, g), m);
    } else {
      var k :| 0 <= k < |ts| && (r == ViaEnd(s, ts[k].from, g, m) || r == ViaEnd(s, ts[k].to, g, m));
      var e := if r == ViaEnd(s, ts[k].from, g, m) then ts[k].from else ts[k].to;
      ManhattanTriangle(s, e, g);
      ScaledAtLeast(Manhattan(s, e), m);
    }
  }

  /** At level `m >= 1` the corrected estimate never exceeds the estimate
      as written. */
  lemma CorrectedBelowLegacy(g: State, ts: seq<Tunnel>, m: nat, s: State)
    requires m >= 1
    ensures CorrectedH(Some(g), ts, m, s) <= LegacyH(Some(g), ts, m, s)
  {
    Attained(g, ts, m, s);
    var w := LegacyH(Some(g), ts, m, s);
    if w == Manhattan(s, g) * m {
      CorrectedAttained(g, ts, m, s);
    } else {
      var k :| 0 <= k < |ts| && (w == ViaFrom(ts[k], s, g, m) || w == ViaTo(ts[k], s, g, m));
      var t := ts[k];
      var a := if w == ViaFrom(t, s, g, m) then t.from else t.to;
      var b := if w == ViaFrom(t, s, g, m) then t.to else t.from;
      assert w == Manhattan(s, a) * m + Manhattan(a, b) + Manhattan(b, g) * m by {
        ManhattanSymmetric(t.from, t.to);
      }
      CorrectedBelowEnd(g, ts, m, s, k);
      ManhattanTriangle(a, b, g);
      ScaledAtLeast(Manhattan(b, g), m);
    }
  }

  /** At level `m >= 1` the corrected estimate lies between the Manhattan
      distance and the estimate as written. */
  lemma CorrectedBetween(g: State, ts: seq<Tunnel>, m: nat, s: State)
    requires m >= 1
    ensures Manhattan(s, g) <= CorrectedH(Some(g), ts, m, s) <= LegacyH(Some(g), ts, m, s)
  {
    CorrectedAboveManhattan(g, ts, m, s);
    CorrectedBelowLegacy(g, ts, m, s);
  }

  /** When every level is at least 1, each step of the older problem costs
      at least the distance it covers. */
  lemma StepsCover(traffic: Traffic, ts: seq<Tunnel>, start: State, g: State)
    requires LevelsAtLeast(traffic, 1)
    ensures var P := LegacyDelivery.ProblemOf(traffic, ts, start, g);
      var U := Delivery.UniverseOf(traffic, ts, start);
      Closed(P, U) && StepsCoverDistance(P, U)
  {
    var P := LegacyDelivery.ProblemOf(traffic, ts, start, g);
    var U := Delivery.UniverseOf(traffic, ts, start);
    LegacyDelivery.WellFormed(traffic, ts, start, g);
    forall s, a | s in U && a in P.actions(s) && P.result(s, a).Some?
      ensures Le(Fin(Manhattan(s, P.result(s, a).value)), P.stepCost(s, a, P.result(s, a).value))
    {
      var t := P.result(s, a).value;
      if a == Action.Tunnel {
        ManhattanSymmetric(s, t);
      } else {
        Delivery.MoveDistance(s, a);
      }
    }
  }

  /** A movement at level at least `m` costs at least `m` (or +infinity). */
  lemma MoveAtLeast(traffic: Traffic, s: State, a: Action, m: nat)
    requires Delivery.IsMove(a) && LevelsAtLeast(traffic, m)
    ensures Le(Fin(m), LegacyDelivery.StepCostOf(traffic, s, a, Delivery.Neighbour(s, a)))
  {
  }

  /** Replaying a plan from `s` at cost `c` to the goal costs at least `c`
      plus the corrected estimate at `s`. */
  lemma {:induction false} RunCoversCorrected(traffic: Traffic, ts: seq<Tunnel>, start: State, g: State, m: nat,
                                              s: State, c: Cost, plan: seq<Action>)
    requires m >= 1 && LevelsAtLeast(traffic, m)
    requires s in Delivery.UniverseOf(traffic, ts, start)
    requires var P := LegacyDelivery.ProblemOf(traffic, ts, start, g);
      Run(P, Arrival(s, c), plan).Some? && Run(P, Arrival(s, c), plan).value.state == g
    ensures var P := LegacyDelivery.ProblemOf(traffic, ts, start, g);
      Le(Add(c, Fin(CorrectedH(Some(g), ts, m, s))), Run(P, Arrival(s, c), plan).value.cost)
    decreases |plan|
  {
    var P := LegacyDelivery.ProblemOf(traffic, ts, start, g);
    var end := Run(P, Arrival(s, c), plan).value;
    if plan == [] {
      ManhattanZero(s, s);
      CorrectedAttained(g, ts, m, s);
    } else {
      var a := plan[0];
      var t := P.result(s, a).value;
      var sc := P.stepCost(s, a, t);
      assert Run(P, Arrival(s, c), plan) == Run(P, Arrival(t, Add(c, sc)), plan[1..]);
      LegacyDelivery.OfferedStep(traffic, ts, start, s, a);
      if a == Action.Tunnel {
        TunnelLeg(traffic, ts, start, g, m, s, c, plan);
      } else {
        RunCoversCorrected(traffic, ts, start, g, m, t, Add(c, sc), plan[1..]);
        Delivery.MoveDistance(s, a);
        CorrectedMove(g, ts, m, s, t);
        MoveAtLeast(traffic, s, a, m);
      }
    }
  }

  /** A plan that starts with TUNNEL costs at least the Manhattan distance
      from its entrance to the goal, which bounds the corrected estimate there. */
  lemma TunnelLeg(traffic: Traffic, ts: seq<Tunnel>, start: State, g: State, m: nat, s: State, c: Cost, plan: seq<Action>)
    requires m >= 1 && LevelsAtLeast(traffic, m)
    requires s in Delivery.UniverseOf(traffic, ts, start)
    requires plan != [] && plan[0] == Action.Tunnel
    requires var P := LegacyDelivery.ProblemOf(traffic, ts, start, g);
      Run(P, Arrival(s, c), plan).Some? && Run(P, Arrival(s, c), plan).value.state == g
    ensures var P := LegacyDelivery.ProblemOf(traffic, ts, start, g);
      Le(Add(c, Fin(CorrectedH(Some(g), ts, m, s))), Run(P, Arrival(s, c), plan).value.cost)
  {
    var P := LegacyDelivery.ProblemOf(traffic, ts, start, g);
    var U := Delivery.UniverseOf(traffic, ts, start);
    StepsCover(traffic, ts, start, g);
    RunCoversDistance(P, U, s, c, plan);
    LegacyDelivery.ActionsOffered(traffic, ts, s, Action.Tunnel);
    CorrectedAtEnd(g, ts, m, s);
  }

  /** The corrected estimate is admissible on the older delivery problem
      whenever every level is at least the `m >= 1` it is given. */
  lemma CorrectedAdmissible(traffic: Traffic, ts: seq<Tunnel>, start: State, g: State, m: nat)
    requires m >= 1 && LevelsAtLeast(traffic, m)
    ensures Admissible(LegacyDelivery.ProblemOf(traffic, ts, start, g), s => CorrectedH(Some(g), ts, m, s),
                       Delivery.UniverseOf(traffic, ts, start))
  {
    var P := LegacyDelivery.ProblemOf(traffic, ts, start, g);
    forall s, plan | s in Delivery.UniverseOf(traffic, ts, start) && Run(P, Arrival(s, Fin(0)), plan).Some?
                     && P.isGoal(Run(P, Arrival(s, Fin(0)), plan).value.state)
      ensures Le(Fin(CorrectedH(Some(g), ts, m, s)), Run(P, Arrival(s, Fin(0)), plan).value.cost)
    {
      RunCoversCorrected(traffic, ts, start, g, m, s, Fin(0), plan);
    }
  }

  /** As written, the estimate is admissible at level 1, where it is the
      Manhattan distance, whenever no level is below 1. */
  lemma LevelOneAdmissible(traffic: Traffic, ts: seq<Tunnel>, start: State, g: State)
    requires LevelsAtLeast(traffic, 1)
    ensures Admissible(LegacyDelivery.ProblemOf(traffic, ts, start, g), s => LegacyH(Some(g), ts, 1, s),
                       Delivery.UniverseOf(traffic, ts, start))
  {
    var P := LegacyDelivery.ProblemOf(traffic, ts, start, g);
    forall s, plan | s in Delivery.UniverseOf(traffic, ts, start) && Run(P, Arrival(s, Fin(0)), plan).Some?
                     && P.isGoal(Run(P, Arrival(s, Fin(0)), plan).value.state)
      ensures Le(Fin(LegacyH(Some(g), ts, 1, s)), Run(P, Arrival(s, Fin(0)), plan).value.cost)
    {
      RunCoversCorrected(traffic, ts, start, g, 1, s, Fin(0), plan);
      CorrectedAboveManhattan(g, ts, 1, s);
      LevelOneIsManhattan(g, ts, s);
    }
  }
}
