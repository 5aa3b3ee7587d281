/** The two heuristics the backend search uses: the Manhattan distance of
    backend/src/code/ManhattanHeuristic.java (h1) and the traffic-aware
    estimate of backend/src/main/java/code/TrafficAwareHeuristic.java (h2). */
module Heuristics {
  import opened Wrappers
  import opened Costs
  import opened Grid
  import opened Tunnels

  // ------------------------------------------------------------------
  // h1

  /** `ManhattanHeuristic`: `setGoal` records the goal and the tunnels,
      `h` ignores the tunnels. A missing goal is the Java `null`. */
  class ManhattanHeuristic {
    var goal: Option<State>
    var tunnels: seq<Tunnel>

    constructor()
      ensures goal == None && tunnels == []
    {
      goal := None;
      tunnels := [];
    }

    method SetGoal(g: State, ts: seq<Tunnel>)
      modifies this
      ensures goal == Some(g) && tunnels == ts
    {
      goal := Some(g);
      tunnels := ts;
    }

    /** `h`: 0 without a goal, else `|x - gx| + |y - gy|`. */
    function H(s: State): (r: nat)
      reads this
      ensures goal.None? ==> r == 0
      ensures goal.Some? ==> r == Manhattan(s, goal.value) && (r == 0 <==> s == goal.value)
    {
      if goal.None? then 0
      else
        ManhattanZero(s, goal.value);
        Abs(s.x - goal.value.x) + Abs(s.y - goal.value.y)
    }
  }

  // ------------------------------------------------------------------
  // h2: its estimates

  /** `MIN_TRAFFIC`. */
  const MinTraffic: nat := 1

  /** `manhattanDistance * MIN_TRAFFIC`: the cost of walking `d` steps at
      the minimum traffic level. */
  function Walk(d: nat): nat {
    d * MinTraffic
  }

  /** Walk to `a`, take the tunnel of cost `c`, walk from `b` to the goal. */
  function Via(s: State, a: State, c: nat, b: State, g: State): nat {
    Walk(Manhattan(s, a)) + c + Walk(Manhattan(b, g))
  }

  /** The better orientation of one tunnel (`findBestSingleTunnelPath`). */
  function SingleTerm(t: Tunnel, s: State, g: State): nat {
    var cost1 := Via(s, t.from, TunnelCost(t), t.to, g);
    var cost2 := Via(s, t.to, TunnelCost(t), t.from, g);
    if cost1 <= cost2 then cost1 else cost2
  }

  /** One tunnel, a walk, then a second tunnel, in one of four orientations. */
  function Via2(s: State, a1: State, c1: nat, b1: State, a2: State, c2: nat, b2: State, g: State): nat {
    Walk(Manhattan(s, a1)) + c1 + Walk(Manhattan(b1, a2)) + c2 + Walk(Manhattan(b2, g))
  }

  /** The best of the four orientation combinations of two tunnels. */
  function PairTerm(t1: Tunnel, t2: Tunnel, s: State, g: State): nat {
    var path1 := Via2(s, t1.from, TunnelCost(t1), t1.to, t2.from, TunnelCost(t2), t2.to, g);
    var path2 := Via2(s, t1.from, TunnelCost(t1), t1.to, t2.to, TunnelCost(t2), t2.from, g);
    var path3 := Via2(s, t1.to, TunnelCost(t1), t1.from, t2.from, TunnelCost(t2), t2.to, g);
    var path4 := Via2(s, t1.to, TunnelCost(t1), t1.from, t2.to, TunnelCost(t2), t2.from, g);
    var a := if path1 <= path2 then path1 else path2;
    var b := if path3 <= path4 then path3 else path4;
    if a <= b then a else b
  }

  /** `Math.min` is associative. */
  lemma MinAssoc(a: Cost, b: Cost, c: Cost)
    ensures Min(Min(a, b), c) == Min(a, Min(b, c))
  {
  }

  /** A running `Math.min` of `f(ts[k])` over `k < n`, from +infinity. */
  function MinOf<T>(ts: seq<T>, n: nat, f: T -> nat): (r: Cost)
    requires n <= |ts|
    ensures r.Inf? <==> n == 0
    ensures r.Fin? ==> r.v >= 0
    decreases n
  {
    if n == 0 then Inf else Min(MinOf(ts, n - 1, f), Fin(f(ts[n - 1])))
  }

  /** The running minimum is below every term ... */
  lemma {:induction false} MinOfBelow<T>(ts: seq<T>, n: nat, f: T -> nat, k: nat)
    requires k < n <= |ts|
    ensures MinOf(ts, n, f).Fin? && MinOf(ts, n, f).v <= f(ts[k])
    decreases n
  {
    if k < n - 1 {
      MinOfBelow(ts, n - 1, f, k);
    }
  }

  /** ... and is one of them. */
  lemma {:induction false} MinOfAttained<T>(ts: seq<T>, n: nat, f: T -> nat)
    requires 0 < n <= |ts|
    ensures exists k :: 0 <= k < n && MinOf(ts, n, f).v == f(ts[k])
    decreases n
  {
    if n > 1 && MinOf(ts, n, f) == MinOf(ts, n - 1, f) {
      MinOfAttained(ts, n - 1, f);
      var k :| 0 <= k < n - 1 && MinOf(ts, n - 1, f).v == f(ts[k]);
      assert 0 <= k < n;
    } else {
      assert MinOf(ts, n, f).v == f(ts[n - 1]);
    }
  }

  /** The running minimum of `f(ts[i], ts[k])` over `i < k < j`. */
  function RowMin<T>(ts: seq<T>, i: nat, j: nat, f: (T, T) -> nat): (r: Cost)
    requires i < |ts| && j <= |ts|
    ensures r.Inf? <==> j <= i + 1
    ensures r.Fin? ==> r.v >= 0
    decreases j
  {
    if j <= i + 1 then Inf else Min(RowMin(ts, i, j - 1, f), Fin(f(ts[i], ts[j - 1])))
  }

  /** The running minimum over the rows `i < n` of the pairs `i < k`. */
  function PairsMin<T>(ts: seq<T>, n: nat, f: (T, T) -> nat): (r: Cost)
    requires n <= |ts|
    ensures r.Fin? ==> r.v >= 0
    decreases n
  {
    if n == 0 then Inf else Min(PairsMin(ts, n - 1, f), RowMin(ts, n - 1, |ts|, f))
  }

  lemma {:induction false} RowMinBelow<T>(ts: seq<T>, i: nat, j: nat, f: (T, T) -> nat, k: nat)
    requires i < k < j <= |ts|
    ensures RowMin(ts, i, j, f).Fin? && RowMin(ts, i, j, f).v <= f(ts[i], ts[k])
    decreases j
  {
    if k < j - 1 {
      RowMinBelow(ts, i, j - 1, f, k);
    }
  }

  lemma {:induction false} RowMinAttained<T>(ts: seq<T>, i: nat, j: nat, f: (T, T) -> nat)
    requires i + 1 < j <= |ts|
    ensures exists k :: i < k < j && RowMin(ts, i, j, f).v == f(ts[i], ts[k])
    decreases j
  {
    if j - 1 > i + 1 && RowMin(ts, i, j, f) == RowMin(ts, i, j - 1, f) {
      RowMinAttained(ts, i, j - 1, f);
      var k :| i < k < j - 1 && RowMin(ts, i, j - 1, f).v == f(ts[i], ts[k]);
      assert i < k < j;
    } else {
      assert RowMin(ts, i, j, f).v == f(ts[i], ts[j - 1]);
    }
  }

  /** The running minimum over the pairs is below the term of every pair ... */
  lemma {:induction false} PairsMinBelow<T>(ts: seq<T>, n: nat, f: (T, T) -> nat, i: nat, k: nat)
    requires i < n <= |ts| && i < k < |ts|
    ensures PairsMin(ts, n, f).Fin? && PairsMin(ts, n, f).v <= f(ts[i], ts[k])
    decreases n
  {
    if i < n - 1 {
      PairsMinBelow(ts, n - 1, f, i, k);
    } else {
      RowMinBelow(ts, i, |ts|, f, k);
    }
  }

  /** ... is finite exactly when some row `i < n` has a pair ... */
  lemma {:induction false} PairsMinFinite<T>(ts: seq<T>, n: nat, f: (T, T) -> nat)
    requires n <= |ts|
    ensures PairsMin(ts, n, f).Fin? <==> n > 0 && |ts| >= 2
    decreases n
  {
    if n > 0 && |ts| >= 2 {
      PairsMinBelow(ts, n, f, 0, 1);
    } else if n > 0 {
      PairsMinFinite(ts, n - 1, f);
    }
  }

  /** ... and is the term of one of them. */
  lemma {:induction false} PairsMinAttained<T>(ts: seq<T>, n: nat, f: (T, T) -> nat)
    requires n <= |ts| && PairsMin(ts, n, f).Fin?
    ensures exists i, k :: 0 <= i < n && i < k < |ts| && PairsMin(ts, n, f).v == f(ts[i], ts[k])
    decreases n
  {
    var row := RowMin(ts, n - 1, |ts|, f);
    if PairsMin(ts, n, f) == PairsMin(ts, n - 1, f) {
      PairsMinAttained(ts, n - 1, f);
      var i, k :| 0 <= i < n - 1 && i < k < |ts| && PairsMin(ts, n - 1, f).v == f(ts[i], ts[k]);
      assert 0 <= i < n;
    } else {
      assert PairsMin(ts, n, f) == row;
      RowMinAttained(ts, n - 1, |ts|, f);
    }
  }

  /** The loop of `findBestSingleTunnelPath`: a running `Math.min` of `f`
      over the elements, from +infinity. */
  method MinOverTerms<T>(ts: seq<T>, f: T -> nat) returns (m: Cost)
    ensures m == MinOf(ts, |ts|, f)
  {
    m := Inf;
    for i := 0 to |ts|
      invariant m == MinOf(ts, i, f)
    {
      m := Min(m, Fin(f(ts[i])));
    }
  }

  /** The nested loops of `findBestDoubleTunnelPath`: a running `Math.min`
      of `f` over the pairs `i < j`, row by row, from +infinity. */
  method MinOverPairs<T>(ts: seq<T>, f: (T, T) -> nat) returns (m: Cost)
    ensures m == PairsMin(ts, |ts|, f)
  {
    m := Inf;
    for i := 0 to |ts|
      invariant m == PairsMin(ts, i, f)
    {
      ghost var before := m;
      for j := i + 1 to |ts|
        invariant m == Min(before, RowMin(ts, i, j, f))
      {
        MinAssoc(before, RowMin(ts, i, j, f), Fin(f(ts[i], ts[j])));
        m := Min(m, Fin(f(ts[i], ts[j])));
      }
    }
  }

  /** The nested loops of `precomputeTunnelDistances`: put `f` of every pair
      `i < j` under the key `(i, j)`, overwriting an entry already there. */
  method FillPairs<T>(ts: seq<T>, f: (T, T) -> nat, cache0: map<(int, int), nat>)
    returns (cache: map<(int, int), nat>)
    ensures forall p :: p in cache <==> p in cache0 || 0 <= p.0 < p.1 < |ts|
    ensures forall p :: p in cache ==>
      cache[p] == if 0 <= p.0 < p.1 < |ts| then f(ts[p.0], ts[p.1]) else cache0[p]
  {
    cache := cache0;
    for i := 0 to |ts|
      invariant forall p :: p in cache <==> p in cache0 || (0 <= p.0 < i && p.0 < p.1 < |ts|)
      invariant forall p :: p in cache ==>
        cache[p] == if 0 <= p.0 < i && p.0 < p.1 < |ts| then f(ts[p.0], ts[p.1]) else cache0[p]
    {
      for j := i + 1 to |ts|
        invariant forall p :: p in cache <==>
          p in cache0 || (0 <= p.0 < i && p.0 < p.1 < |ts|) || (p.0 == i && i < p.1 < j)
        invariant forall p :: p in cache ==>
          cache[p] == if (0 <= p.0 < i && p.0 < p.1 < |ts|) || (p.0 == i && i < p.1 < j)
                      then f(ts[p.0], ts[p.1]) else cache0[p]
      {
        cache := cache[(i, j) := f(ts[i], ts[j])];
      }
    }
  }

  /** The estimate functions, with the search's start and goal fixed. */
  function SingleF(s: State, g: State): Tunnel -> nat {
    t => SingleTerm(t, s, g)
  }

  function PairF(s: State, g: State): (Tunnel, Tunnel) -> nat {
    (t1, t2) => PairTerm(t1, t2, s, g)
  }

  /** `findBestSingleTunnelPath`: +infinity for no tunnel. */
  function SingleBest(ts: seq<Tunnel>, s: State, g: State): Cost {
    MinOf(ts, |ts|, SingleF(s, g))
  }

  /** `findBestDoubleTunnelPath`: +infinity for fewer than two tunnels. */
  function DoubleBest(ts: seq<Tunnel>, s: State, g: State): Cost {
    PairsMin(ts, |ts|, PairF(s, g))
  }

  /** The running `Math.min` of `h`: the direct estimate, lowered by the
      single-tunnel best when there are tunnels and by the two-tunnel best
      when those are consulted. */
  function Lowest(direct: nat, hasTunnels: bool, single: Cost, consult: bool, double: Cost): (r: nat)
    requires single.Fin? ==> single.v >= 0
    requires double.Fin? ==> double.v >= 0
    ensures r <= direct
    ensures hasTunnels && single.Fin? ==> r <= single.v
    ensures hasTunnels && consult && double.Fin? ==> r <= double.v
    ensures || r == direct
            || (hasTunnels && single.Fin? && r == single.v)
            || (hasTunnels && consult && double.Fin? && r == double.v)
  {
    if !hasTunnels then direct
    else
      var best := Min(Fin(direct), single);
      var best' := if consult then Min(best, double) else best;
      best'.v
  }

  /** `h` of the traffic-aware heuristic: 0 without a goal; otherwise the
      direct estimate, lowered by the single-tunnel estimates, and by the
      two-tunnel estimates when there are two tunnels or more and the goal
      is more than 10 away. */
  function TrafficH(goal: Option<State>, ts: seq<Tunnel>, s: State): (r: nat)
    ensures goal.None? ==> r == 0
    ensures goal.Some? ==> r <= Walk(Manhattan(s, goal.value))
  {
    if goal.None? then 0
    else
      var g := goal.value;
      Lowest(Walk(Manhattan(s, g)), ts != [], SingleBest(ts, s, g),
             |ts| >= 2 && Manhattan(s, g) > 10, DoubleBest(ts, s, g))
  }

  // ------------------------------------------------------------------
  // h2: what it amounts to

  /** With `MIN_TRAFFIC` at 1 a walk costs its number of steps. */
  lemma WalkIsDistance(d: nat)
    ensures Walk(d) == d
  {
  }

  /** No single-tunnel estimate is below the direct distance. */
  lemma SingleTermAtLeastDirect(t: Tunnel, s: State, g: State)
    ensures Manhattan(s, g) <= SingleTerm(t, s, g)
  {
    WalkIsDistance(Manhattan(s, t.from));
    WalkIsDistance(Manhattan(s, t.to));
    WalkIsDistance(Manhattan(t.to, g));
    WalkIsDistance(Manhattan(t.from, g));
    ManhattanTriangle(s, t.from, t.to);
    ManhattanTriangle(s, t.to, g);
    ManhattanTriangle(s, t.to, t.from);
    ManhattanTriangle(s, t.from, g);
    ManhattanSymmetric(t.from, t.to);
  }

  /** A walk, a tunnel, a walk and a tunnel cost at least the direct distance. */
  lemma Via2AtLeastDirect(s: State, a1: State, b1: State, a2: State, b2: State, g: State)
    ensures Manhattan(s, g) <= Via2(s, a1, Manhattan(a1, b1), b1, a2, Manhattan(a2, b2), b2, g)
  {
    WalkIsDistance(Manhattan(s, a1));
    WalkIsDistance(Manhattan(b1, a2));
    WalkIsDistance(Manhattan(b2, g));
    ManhattanTriangle(s, a1, b1);
    ManhattanTriangle(s, b1, a2);
    ManhattanTriangle(s, a2, b2);
    ManhattanTriangle(s, b2, g);
  }

  /** No two-tunnel estimate is below the direct distance. */
  lemma PairTermAtLeastDirect(t1: Tunnel, t2: Tunnel, s: State, g: State)
    ensures Manhattan(s, g) <= PairTerm(t1, t2, s, g)
  {
    ManhattanSymmetric(t1.from, t1.to);
    ManhattanSymmetric(t2.from, t2.to);
    Via2AtLeastDirect(s, t1.from, t1.to, t2.from, t2.to, g);
    Via2AtLeastDirect(s, t1.from, t1.to, t2.to, t2.from, g);
    Via2AtLeastDirect(s, t1.to, t1.from, t2.from, t2.to, g);
    Via2AtLeastDirect(s, t1.to, t1.from, t2.to, t2.from, g);
  }

  /** The estimate is below the direct one and, when they are consulted,
      below the best single-tunnel and two-tunnel estimates. */
  lemma TrafficBelowBests(g: State, ts: seq<Tunnel>, s: State)
    ensures ts != [] ==> SingleBest(ts, s, g).Fin? && TrafficH(Some(g), ts, s) <= SingleBest(ts, s, g).v
    ensures |ts| >= 2 && Manhattan(s, g) > 10 ==>
      DoubleBest(ts, s, g).Fin? && TrafficH(Some(g), ts, s) <= DoubleBest(ts, s, g).v
  {
    BestsFinite(ts, s, g);
  }

  /** Each best is finite exactly when it has a candidate. */
  lemma BestsFinite(ts: seq<Tunnel>, s: State, g: State)
    ensures SingleBest(ts, s, g).Fin? <==> ts != []
    ensures DoubleBest(ts, s, g).Fin? <==> |ts| >= 2
  {
    PairsMinFinite(ts, |ts|, PairF(s, g));
  }

  /** The estimate is one of the candidates: the direct estimate, a
      single-tunnel one or, when consulted, a two-tunnel one. */
  lemma TrafficAttained(g: State, ts: seq<Tunnel>, s: State)
    ensures var h := TrafficH(Some(g), ts, s);
      || h == Walk(Manhattan(s, g))
      || (exists i :: 0 <= i < |ts| && h == SingleTerm(ts[i], s, g))
      || (|ts| >= 2 && Manhattan(s, g) > 10 && exists i, k :: 0 <= i < k < |ts| && h == PairTerm(ts[i], ts[k], s, g))
  {
    BestsFinite(ts, s, g);
    if ts != [] {
      MinOfAttained(ts, |ts|, SingleF(s, g));
    }
    if |ts| >= 2 {
      PairsMinAttained(ts, |ts|, PairF(s, g));
    }
  }

  /** With a goal set the traffic-aware estimate is exactly the Manhattan
      distance: every tunnel estimate is a sum of Manhattan segments (the
      tunnel's cost being one too), so none undercuts the direct one. */
  lemma TrafficIsManhattan(g: State, ts: seq<Tunnel>, s: State)
    ensures TrafficH(Some(g), ts, s) == Manhattan(s, g)
  {
    WalkIsDistance(Manhattan(s, g));
    TrafficAttained(g, ts, s);
    var h := TrafficH(Some(g), ts, s);
    if h != Walk(Manhattan(s, g)) {
      if exists i :: 0 <= i < |ts| && h == SingleTerm(ts[i], s, g) {
        var i :| 0 <= i < |ts| && h == SingleTerm(ts[i], s, g);
        SingleTermAtLeastDirect(ts[i], s, g);
      } else {
        var i, k :| 0 <= i < k < |ts| && h == PairTerm(ts[i], ts[k], s, g);
        PairTermAtLeastDirect(ts[i], ts[k], s, g);
      }
    }
  }

  /** The estimate is never above either orientation of any one tunnel, nor,
      when the two-tunnel estimates are consulted, above any pair `i < k`. */
  lemma TrafficBelowTunnelEstimates(g: State, ts: seq<Tunnel>, s: State)
    ensures forall i :: 0 <= i < |ts| ==> TrafficH(Some(g), ts, s) <= SingleTerm(ts[i], s, g)
    ensures |ts| >= 2 && Manhattan(s, g) > 10 ==>
      forall i, k :: 0 <= i < k < |ts| ==> TrafficH(Some(g), ts, s) <= PairTerm(ts[i], ts[k], s, g)
  {
    TrafficBelowBests(g, ts, s);
    forall i | 0 <= i < |ts|
      ensures TrafficH(Some(g), ts, s) <= SingleTerm(ts[i], s, g)
    {
      MinOfBelow(ts, |ts|, SingleF(s, g), i);
    }
    if |ts| >= 2 && Manhattan(s, g) > 10 {
      forall i, k | 0 <= i < k < |ts|
        ensures TrafficH(Some(g), ts, s) <= PairTerm(ts[i], ts[k], s, g)
      {
        PairsMinBelow(ts, |ts|, PairF(s, g), i, k);
      }
    }
  }

  /** Without tunnels the estimate is the direct one, and at the goal it is 0. */
  lemma TrafficNoTunnels(g: State, ts: seq<Tunnel>, s: State)
    ensures ts == [] ==> TrafficH(Some(g), ts, s) == Manhattan(s, g) * MinTraffic
    ensures TrafficH(Some(g), ts, g) == 0
  {
  }

  // ------------------------------------------------------------------
  // h2: the cache of tunnel-to-tunnel distances

  /** The least distance between an entrance of `t1` and one of `t2`. */
  function CrossDistance(t1: Tunnel, t2: Tunnel): nat {
    var dist1 := Manhattan(t1.from, t2.from);
    var dist2 := Manhattan(t1.from, t2.to);
    var dist3 := Manhattan(t1.to, t2.from);
    var dist4 := Manhattan(t1.to, t2.to);
    var a := if dist1 <= dist2 then dist1 else dist2;
    var b := if dist3 <= dist4 then dist3 else dist4;
    if a <= b then a else b
  }

  /** The cached distance is the least over the four pairs of entrances. */
  lemma CrossDistanceIsLeast(t1: Tunnel, t2: Tunnel)
    ensures forall a, b :: a in Ends(t1) && b in Ends(t2) ==> CrossDistance(t1, t2) <= Manhattan(a, b)
    ensures exists a, b :: a in Ends(t1) && b in Ends(t2) && CrossDistance(t1, t2) == Manhattan(a, b)
  {
    var d := CrossDistance(t1, t2);
    if d == Manhattan(t1.from, t2.from) {
      assert t1.from in Ends(t1) && t2.from in Ends(t2);
    } else if d == Manhattan(t1.from, t2.to) {
      assert t1.from in Ends(t1) && t2.to in Ends(t2);
    } else if d == Manhattan(t1.to, t2.from) {
      assert t1.to in Ends(t1) && t2.from in Ends(t2);
    } else {
      assert t1.to in Ends(t1) && t2.to in Ends(t2);
    }
  }

  // ------------------------------------------------------------------
  // h2: the class

  /** `TrafficAwareHeuristic`. */
  class TrafficAwareHeuristic {
    var goal: Option<State>
    var tunnels: seq<Tunnel>
    var cache: map<(int, int), nat>

    constructor()
      ensures goal == None && tunnels == [] && cache == map[]
    {
      goal := None;
      tunnels := [];
      cache := map[];
    }

    /** `setGoal`: record the goal and tunnels, clear the cache, and fill it
        with one entry per pair `i < j` when there are two tunnels or more. */
    method SetGoal(g: State, ts: seq<Tunnel>)
      modifies this
      ensures goal == Some(g) && tunnels == ts
      ensures forall p :: p in cache <==> |ts| > 1 && 0 <= p.0 < p.1 < |ts|
      ensures forall p :: p in cache ==> cache[p] == CrossDistance(ts[p.0], ts[p.1])
    {
      goal := Some(g);
      tunnels := ts;
      cache := map[];
      if |ts| > 1 {
        PrecomputeTunnelDistances();
      }
    }

    /** `precomputeTunnelDistances`: put the entry of every pair `i < j`,
        overwriting an entry already there. */
    method PrecomputeTunnelDistances()
      modifies this
      ensures goal == old(goal) && tunnels == old(tunnels)
      ensures forall p :: p in cache <==> p in old(cache) || 0 <= p.0 < p.1 < |tunnels|
      ensures forall p :: p in cache ==>
        cache[p] == if 0 <= p.0 < p.1 < |tunnels| then CrossDistance(tunnels[p.0], tunnels[p.1]) else old(cache)[p]
    {
      cache := FillPairs(tunnels, CrossDistance, cache);
    }

    /** `h`. It never reads the cache. */
    method H(s: State) returns (r: nat)
      ensures r == TrafficH(goal, tunnels, s)
    {
      if goal.None? {
        return 0;
      }
      var g := goal.value;
      var directCost := Walk(Manhattan(s, g));
      if tunnels == [] {
        return directCost;
      }
      r := LowerByTunnels(s, g, directCost, |tunnels| >= 2 && Manhattan(s, g) > 10);
    }

    /** The tunnel part of `h`: lower the direct estimate by the best
        single-tunnel estimate and, when `consult`, by the best two-tunnel one. */
    method LowerByTunnels(s: State, g: State, directCost: nat, consult: bool) returns (r: nat)
      requires tunnels != [] && (consult ==> |tunnels| >= 2)
      ensures r == Lowest(directCost, true, SingleBest(tunnels, s, g), consult, DoubleBest(tunnels, s, g))
    {
      BestsFinite(tunnels, s, g);
      var bestCost := Fin(directCost);
      var single := FindBestSingleTunnelPath(s, g);
      bestCost := Min(bestCost, single);
      if consult {
        var double := FindBestDoubleTunnelPath(s, g);
        bestCost := Min(bestCost, double);
      }
      r := bestCost.v;
    }

    /** `findBestSingleTunnelPath`. */
    method FindBestSingleTunnelPath(start: State, end: State) returns (minCost: Cost)
      ensures minCost == SingleBest(tunnels, start, end)
    {
      minCost := MinOverTerms(tunnels, SingleF(start, end));
    }

    /** `findBestDoubleTunnelPath`. */
    method FindBestDoubleTunnelPath(start: State, end: State) returns (minCost: Cost)
      ensures minCost == DoubleBest(tunnels, start, end)
    {
      minCost := MinOverPairs(tunnels, PairF(start, end));
    }
  }
}
