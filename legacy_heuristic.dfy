/** The traffic-aware estimate of src/code/TrafficAwareHeuristic.java: the
    Manhattan distance to the goal scaled by a minimum traffic level, lowered
    by the estimate through either orientation of every tunnel. The walking
    legs of a tunnel estimate are scaled; the tunnel's own cost is not. */
module LegacyHeuristic {
  import opened Wrappers
  import opened Grid
  import opened Tunnels

  /** `Math.max(1, minTraffic)`: the least level that is at least 1 and at
      least the argument. */
  function Clamp(level: int): (r: nat)
    ensures r >= 1 && r >= level
    ensures r == 1 || r == level
  {
    if level < 1 then 1 else level
  }

  /** `Math.min` on the non-negative integers the estimates are. */
  function Smaller(a: nat, b: nat): (r: nat)
    ensures r <= a && r <= b
    ensures r == a || r == b
  {
    if a <= b then a else b
  }

  /** Walk from `s` to `a` at level `m`, take a tunnel of cost `c`, walk
      from `b` to the goal `g` at level `m`. */
  function Via(s: State, a: State, c: nat, b: State, g: State, m: nat): nat {
    Manhattan(s, a) * m + c + Manhattan(b, g) * m
  }

  /** `viaFrom`: enter at `from`, leave at `to`. */
  function ViaFrom(t: Tunnel, s: State, g: State, m: nat): nat {
    Via(s, t.from, TunnelCost(t), t.to, g, m)
  }

  /** `viaTo`: enter at `to`, leave at `from`. */
  function ViaTo(t: Tunnel, s: State, g: State, m: nat): nat {
    Via(s, t.to, TunnelCost(t), t.from, g, m)
  }

  /** `minCost` after the first `n` tunnels of the loop, from `direct`. */
  function Lowered(ts: seq<Tunnel>, n: nat, s: State, g: State, m: nat, direct: nat): nat
    requires n <= |ts|
    decreases n
  {
    if n == 0 then direct
    else Smaller(Lowered(ts, n - 1, s, g, m, direct), Smaller(ViaFrom(ts[n - 1], s, g, m), ViaTo(ts[n - 1], s, g, m)))
  }

  /** `h`: 0 without a goal; else the scaled direct estimate lowered by
      every tunnel. */
  function LegacyH(goal: Option<State>, ts: seq<Tunnel>, m: nat, s: State): nat {
    if goal.None? then 0
    else Lowered(ts, |ts|, s, goal.value, m, Manhattan(s, goal.value) * m)
  }

  // ------------------------------------------------------------------
  // What `h` promises

  lemma {:induction false} LoweredBelowDirect(ts: seq<Tunnel>, n: nat, s: State, g: State, m: nat, direct: nat)
    requires n <= |ts|
    ensures Lowered(ts, n, s, g, m, direct) <= direct
    decreases n
  {
    if n > 0 {
      LoweredBelowDirect(ts, n - 1, s, g, m, direct);
    }
  }

  lemma {:induction false} LoweredBelowTunnel(ts: seq<Tunnel>, n: nat, s: State, g: State, m: nat, direct: nat, k: nat)
    requires k < n <= |ts|
    ensures Lowered(ts, n, s, g, m, direct) <= ViaFrom(ts[k], s, g, m)
    ensures Lowered(ts, n, s, g, m, direct) <= ViaTo(ts[k], s, g, m)
    decreases n
  {
    if k < n - 1 {
      LoweredBelowTunnel(ts, n - 1, s, g, m, direct, k);
    }
  }

  /** The loop's minimum is one of the values it ranged over. */
  lemma {:induction false} LoweredAttained(ts: seq<Tunnel>, n: nat, s: State, g: State, m: nat, direct: nat)
    requires n <= |ts|
    ensures var r := Lowered(ts, n, s, g, m, direct);
      r == direct || exists k :: 0 <= k < n && (r == ViaFrom(ts[k], s, g, m) || r == ViaTo(ts[k], s, g, m))
    decreases n
  {
    if n > 0 {
      LoweredAttained(ts, n - 1, s, g, m, direct);
    }
  }

  /** `h(s)` is at most the Manhattan distance times the level, and at most
      both estimates through every tunnel. */
  lemma BelowEstimates(g: State, ts: seq<Tunnel>, m: nat, s: State)
    ensures LegacyH(Some(g), ts, m, s) <= Manhattan(s, g) * m
    ensures forall k :: 0 <= k < |ts| ==>
      LegacyH(Some(g), ts, m, s) <= ViaFrom(ts[k], s, g, m) && LegacyH(Some(g), ts, m, s) <= ViaTo(ts[k], s, g, m)
  {
    LoweredBelowDirect(ts, |ts|, s, g, m, Manhattan(s, g) * m);
    forall k | 0 <= k < |ts|
      ensures LegacyH(Some(g), ts, m, s) <= ViaFrom(ts[k], s, g, m) && LegacyH(Some(g), ts, m, s) <= ViaTo(ts[k], s, g, m)
    {
      LoweredBelowTunnel(ts, |ts|, s, g, m, Manhattan(s, g) * m, k);
    }
  }

  /** `h(s)` is the direct estimate or the estimate through one tunnel. */
  lemma Attained(g: State, ts: seq<Tunnel>, m: nat, s: State)
    ensures var r := LegacyH(Some(g), ts, m, s);
      r == Manhattan(s, g) * m || exists k :: 0 <= k < |ts| && (r == ViaFrom(ts[k], s, g, m) || r == ViaTo(ts[k], s, g, m))
  {
    LoweredAttained(ts, |ts|, s, g, m, Manhattan(s, g) * m);
  }

  /** `h` is 0 at the goal, whatever the tunnels. */
  lemma ZeroAtGoal(g: State, ts: seq<Tunnel>, m: nat)
    ensures LegacyH(Some(g), ts, m, g) == 0
  {
    ManhattanZero(g, g);
    LoweredBelowDirect(ts, |ts|, g, g, m, Manhattan(g, g) * m);
  }

  /** Without tunnels `h` is the scaled Manhattan distance. */
  lemma NoTunnels(g: State, m: nat, s: State)
    ensures LegacyH(Some(g), [], m, s) == Manhattan(s, g) * m
  {
  }

  /** At level 1 no tunnel estimate undercuts the direct one, so `h` is the
      Manhattan distance. */
  lemma LevelOneIsManhattan(g: State, ts: seq<Tunnel>, s: State)
    ensures LegacyH(Some(g), ts, 1, s) == Manhattan(s, g)
  {
    Attained(g, ts, 1, s);
    BelowEstimates(g, ts, 1, s);
    var r := LegacyH(Some(g), ts, 1, s);
    if r != Manhattan(s, g) {
      var k :| 0 <= k < |ts| && (r == ViaFrom(ts[k], s, g, 1) || r == ViaTo(ts[k], s, g, 1));
      ManhattanTriangle(s, ts[k].from, g);
      ManhattanTriangle(ts[k].from, ts[k].to, g);
      ManhattanTriangle(s, ts[k].to, g);
      ManhattanTriangle(ts[k].to, ts[k].from, g);
      ManhattanSymmetric(ts[k].from, ts[k].to);
    }
  }

  /** Above level 1 a tunnel can undercut the direct estimate: from (0,0) to
      (10,0) at level 2 the direct estimate is 20, the one through a tunnel
      from (1,0) to (9,0) is 2 + 8 + 2. */
  lemma TunnelUndercuts()
    ensures LegacyH(Some(State(10, 0)), [Tunnel(State(1, 0), State(9, 0))], 2, State(0, 0)) == 12
    ensures Manhattan(State(0, 0), State(10, 0)) * 2 == 20
  {
    var s, g, t := State(0, 0), State(10, 0), Tunnel(State(1, 0), State(9, 0));
    AbsValue(0 - 10);
    AbsValue(0 - 1);
    AbsValue(1 - 9);
    AbsValue(9 - 10);
    AbsValue(0 - 9);
    AbsValue(1 - 10);
    AbsValue(0);
    assert Manhattan(s, g) == 10;
    assert ViaFrom(t, s, g, 2) == 12;
    assert ViaTo(t, s, g, 2) == 44;
  }

  // ------------------------------------------------------------------
  // The class

  /** `TrafficAwareHeuristic`. A missing goal is the Java `null`; a `null`
      tunnel list behaves as an empty one, since `h` then skips the loop. */
  class LegacyTrafficHeuristic {
    var goal: Option<State>
    var tunnels: seq<Tunnel>
    const minTraffic: nat

    constructor(level: int)
      ensures minTraffic == Clamp(level) && minTraffic >= 1
      ensures goal == None && tunnels == []
    {
      minTraffic := Clamp(level);
      goal := None;
      tunnels := [];
    }

    /** `setGoal`: record the goal and the tunnels. */
    method SetGoal(g: Option<State>, ts: seq<Tunnel>)
      modifies this
      ensures goal == g && tunnels == ts
    {
      goal := g;
      tunnels := ts;
    }

    /** `h`: the loop over the tunnels keeps the running minimum. */
    method H(s: State) returns (r: nat)
      ensures r == LegacyH(goal, tunnels, minTraffic, s)
    {
      if goal.None? {
        return 0;
      }
      var g := goal.value;
      var directCost := Manhattan(s, g) * minTraffic;
      var minCost := directCost;
      for i := 0 to |tunnels|
        invariant minCost == Lowered(tunnels, i, s, g, minTraffic, directCost)
      {
        var t := tunnels[i];
        var toEntrance1 := Manhattan(s, t.from) * minTraffic;
        var tunnelCost := Manhattan(t.from, t.to);
        var fromExit1 := Manhattan(t.to, g) * minTraffic;
        var viaFrom := toEntrance1 + tunnelCost + fromExit1;
        var toEntrance2 := Manhattan(s, t.to) * minTraffic;
        var fromExit2 := Manhattan(t.from, g) * minTraffic;
        var viaTo := toEntrance2 + tunnelCost + fromExit2;
        assert viaFrom == ViaFrom(t, s, g, minTraffic) && viaTo == ViaTo(t, s, g, minTraffic);
        minCost := Smaller(minCost, Smaller(viaFrom, viaTo));
      }
      r := minCost;
    }
  }
}
