/** The assignment planner of backend/src/main/java/code/DeliveryPlanner.java:
    a greedy choice of the cheapest truck for every customer, over a cost
    matrix whose path texts are memoised in `pathCache` under the key
    `truck->customer:strategy`, with a warning for every customer no
    truck reaches. Trucks are not used up: one truck may serve several
    customers. */
module BackendPlanner {
  import opened Wrappers
  import opened Costs
  import opened Grid
  import opened SearchModel
  import opened Strategies
  import opened Actions
  import opened Tunnels
  import opened DeliveryInput
  import opened Delivery
  import opened PlannerCommon

  /** The cache key `trucks.get(t) + "->" + customers.get(c) + ":" + strategy`,
      with the three parts kept apart. */
  datatype PathKey = PathKey(truck: State, customer: State, strategy: Strategy)

  /** `"Customer " + c + " at " + customers.get(c) + " is unreachable by all trucks!"`. */
  datatype Warning = Unreachable(customer: nat, at: State)

  /** `text` is a text `path` may return for the search from `s` to `g` under `x`. */
  ghost predicate Answer(traffic: Traffic, ts: seq<Tunnel>, s: State, g: State, x: Strategy, text: string) {
    exists r :: Promised(traffic, ts, s, g, x, r) && text == PathText(r)
  }

  /** `cols` holds, for every customer and every truck, the cost a search
      from the truck to the customer answers. */
  ghost predicate MatrixRead(traffic: Traffic, ts: seq<Tunnel>, trucks: seq<State>, customers: seq<State>,
                             x: Strategy, cols: seq<seq<Cost>>) {
    && |cols| == |customers|
    && forall c :: 0 <= c < |cols| ==>
         && |cols[c]| == |trucks|
         && forall t :: 0 <= t < |trucks| ==> CostAnswer(traffic, ts, trucks[t], customers[c], x, cols[c][t])
  }

  /** `cost` is what `parseCost` reads from such a text. */
  ghost predicate CostAnswer(traffic: Traffic, ts: seq<Tunnel>, s: State, g: State, x: Strategy, cost: Cost) {
    exists r :: Promised(traffic, ts, s, g, x, r) && cost == TextCost(r)
  }

  /** `CostAnswer` one recursive call away. The verifier unfolds a
      recursive predicate only once where it is used, so an invariant stated
      with `Read(1, ...)` does not bring the whole search promise into every
      step of a loop; `ReadAnswer` and `LoadCost` pass between the two. */
  ghost predicate Read(depth: nat, traffic: Traffic, ts: seq<Tunnel>, s: State, g: State, x: Strategy, cost: Cost)
    decreases depth
  {
    if depth == 0 then CostAnswer(traffic, ts, s, g, x, cost) else Read(depth - 1, traffic, ts, s, g, x, cost)
  }

  /** The cost read from an answer is a cost answer. */
  lemma ReadAnswer(traffic: Traffic, ts: seq<Tunnel>, s: State, g: State, x: Strategy, text: string)
    requires Answer(traffic, ts, s, g, x, text)
    ensures Read(1, traffic, ts, s, g, x, ParseCost(text))
  {
    AnswerCost(traffic, ts, s, g, x, text);
    assert Read(0, traffic, ts, s, g, x, ParseCost(text));
  }

  lemma LoadCost(traffic: Traffic, ts: seq<Tunnel>, s: State, g: State, x: Strategy, cost: Cost)
    requires Read(1, traffic, ts, s, g, x, cost)
    ensures CostAnswer(traffic, ts, s, g, x, cost)
  {
    assert Read(0, traffic, ts, s, g, x, cost);
  }

  /** Reading the cost of an answer gives the cost of the search, cast to `int`. */
  lemma AnswerCost(traffic: Traffic, ts: seq<Tunnel>, s: State, g: State, x: Strategy, text: string)
    requires Answer(traffic, ts, s, g, x, text)
    ensures CostAnswer(traffic, ts, s, g, x, ParseCost(text))
  {
    var r :| Promised(traffic, ts, s, g, x, r) && text == PathText(r);
    ParseCostOfPath(r);
  }

  /** What a cost read back from `path` says about the customer: for every
      code but ID it is +infinity exactly when the goal cannot be reached; a
      finite one is not negative; for UC, AS1 and AS2 it is no more than the
      (cast) cost of any plan that reaches the goal. */
  lemma CostAnswerFacts(traffic: Traffic, ts: seq<Tunnel>, s: State, g: State, x: Strategy, cost: Cost)
    requires CostAnswer(traffic, ts, s, g, x, cost)
    ensures x != ID ==> (cost.Inf? <==> !GoalReachable(ProblemOf(traffic, ts, s, g)))
    ensures cost.Fin? ==> cost.v >= 0
    ensures x in {UC, AS1, AS2} ==> var P := ProblemOf(traffic, ts, s, g);
      forall plan :: ReachesGoal(P, plan) ==> Le(cost, CastCost(Run(P, Start(P), plan).value.cost))
  {
    var r :| Promised(traffic, ts, s, g, x, r) && cost == TextCost(r);
    var P := ProblemOf(traffic, ts, s, g);
    PromisedCost(traffic, ts, s, g, x, r);
    if x in {UC, AS1, AS2} {
      forall plan | ReachesGoal(P, plan)
        ensures Le(cost, CastCost(Run(P, Start(P), plan).value.cost))
      {
        CastMonotone(r.cost, Run(P, Start(P), plan).value.cost);
      }
    }
  }

  // ------------------------------------------------------------------
  // The greedy assignment, on the columns of the cost matrix

  /** The pairs `greedyAssignment` collects from the first `n` customers:
      customer `c` goes to `findBestTruck` of its column unless that is -1. */
  function GreedyPairs(cols: seq<seq<Cost>>, n: nat): seq<Assignment>
    requires n <= |cols|
    decreases n
  {
    if n == 0 then []
    else
      var b := BestTruck(cols[n - 1]);
      GreedyPairs(cols, n - 1) + (if b != -1 then [Assignment(b, n - 1)] else [])
  }

  /** The customers among the first `n` that get a warning instead. */
  function Unassigned(cols: seq<seq<Cost>>, n: nat): (us: seq<nat>)
    requires n <= |cols|
    ensures forall k :: 0 <= k < |us| ==> us[k] < n
    decreases n
  {
    if n == 0 then []
    else Unassigned(cols, n - 1) + (if BestTruck(cols[n - 1]) == -1 then [n - 1] else [])
  }

  /** Every customer below `n` gives one pair or one warning. */
  lemma {:induction false} GreedyCount(cols: seq<seq<Cost>>, n: nat)
    requires n <= |cols|
    ensures |GreedyPairs(cols, n)| + |Unassigned(cols, n)| == n
    decreases n
  {
    if n > 0 {
      GreedyCount(cols, n - 1);
    }
  }

  /** A pair names a customer below `n` and the best truck of its column,
      which is not -1; a warned customer has -1 as its best truck. */
  lemma {:induction false} GreedyChoices(cols: seq<seq<Cost>>, n: nat)
    requires n <= |cols|
    ensures forall k :: 0 <= k < |GreedyPairs(cols, n)| ==>
      var a := GreedyPairs(cols, n)[k]; a.customer < n && a.truck == BestTruck(cols[a.customer]) != -1
    ensures forall k :: 0 <= k < |Unassigned(cols, n)| ==>
      var c := Unassigned(cols, n)[k]; c < n && BestTruck(cols[c]) == -1
    decreases n
  {
    if n > 0 {
      GreedyChoices(cols, n - 1);
      var g0 := GreedyPairs(cols, n - 1);
      var w0 := Unassigned(cols, n - 1);
      assert forall k :: 0 <= k < |g0| ==> GreedyPairs(cols, n)[k] == g0[k];
      assert forall k :: 0 <= k < |w0| ==> Unassigned(cols, n)[k] == w0[k];
    }
  }

  /** Customers are handled in index order: the customers of the pairs,
      and the warned customers, are strictly increasing. */
  lemma {:induction false} GreedyOrdered(cols: seq<seq<Cost>>, n: nat)
    requires n <= |cols|
    ensures forall i, j :: 0 <= i < j < |GreedyPairs(cols, n)| ==> GreedyPairs(cols, n)[i].customer < GreedyPairs(cols, n)[j].customer
    ensures forall i, j :: 0 <= i < j < |Unassigned(cols, n)| ==> Unassigned(cols, n)[i] < Unassigned(cols, n)[j]
    decreases n
  {
    if n > 0 {
      GreedyOrdered(cols, n - 1);
      GreedyChoices(cols, n - 1);
      var g0 := GreedyPairs(cols, n - 1);
      var w0 := Unassigned(cols, n - 1);
      assert forall k :: 0 <= k < |g0| ==> GreedyPairs(cols, n)[k] == g0[k];
      assert forall k :: 0 <= k < |w0| ==> Unassigned(cols, n)[k] == w0[k];
    }
  }

  /** Every customer below `n` with a best truck gets a pair. */
  lemma {:induction false} GreedyComplete(cols: seq<seq<Cost>>, n: nat, c: nat)
    requires c < n <= |cols| && BestTruck(cols[c]) != -1
    ensures exists k :: 0 <= k < |GreedyPairs(cols, n)| && GreedyPairs(cols, n)[k] == Assignment(BestTruck(cols[c]), c)
    decreases n
  {
    var g := GreedyPairs(cols, n);
    if c < n - 1 {
      GreedyComplete(cols, n - 1, c);
      var g0 := GreedyPairs(cols, n - 1);
      var k :| 0 <= k < |g0| && g0[k] == Assignment(BestTruck(cols[c]), c);
      assert g[k] == g0[k];
    } else {
      assert g[|g| - 1] == Assignment(BestTruck(cols[c]), c);
    }
  }

  /** Every customer below `n` without a best truck gets a warning. */
  lemma {:induction false} UnassignedComplete(cols: seq<seq<Cost>>, n: nat, c: nat)
    requires c < n <= |cols| && BestTruck(cols[c]) == -1
    ensures exists k :: 0 <= k < |Unassigned(cols, n)| && Unassigned(cols, n)[k] == c
    decreases n
  {
    var w := Unassigned(cols, n);
    if c < n - 1 {
      UnassignedComplete(cols, n - 1, c);
      var w0 := Unassigned(cols, n - 1);
      var k :| 0 <= k < |w0| && w0[k] == c;
      assert w[k] == w0[k];
    } else {
      assert w[|w| - 1] == c;
    }
  }

  /** Trucks are not used up: two customers may both go to truck 0. */
  lemma TruckServesTwo()
    ensures GreedyPairs([[Fin(3)], [Fin(5)]], 2) == [Assignment(0, 0), Assignment(0, 1)]
  {
    var cols := [[Fin(3)], [Fin(5)]];
    assert Scan(cols[0], 1) == (Fin(3), 0);
    assert Scan(cols[1], 1) == (Fin(5), 0);
  }

  // ------------------------------------------------------------------
  // The cache as a value

  function KeyOf(trucks: seq<State>, customers: seq<State>, x: Strategy, t: nat, c: nat): PathKey
    requires t < |trucks| && c < |customers|
  {
    PathKey(trucks[t], customers[c], x)
  }

  /** Every (truck, customer) key is in `cache`. */
  predicate Covers(cache: map<PathKey, string>, trucks: seq<State>, customers: seq<State>, x: Strategy) {
    forall t, c :: 0 <= t < |trucks| && 0 <= c < |customers| ==> KeyOf(trucks, customers, x, t, c) in cache
  }

  /** The keys of the pairs before `(t, c)` in row-major order. */
  function KeysBefore(trucks: seq<State>, customers: seq<State>, x: Strategy, t: nat, c: nat): set<PathKey> {
    set i, j | 0 <= i < |trucks| && 0 <= j < |customers| && (i < t || (i == t && j < c)) :: KeyOf(trucks, customers, x, i, j)
  }

  lemma KeysBeforeStep(trucks: seq<State>, customers: seq<State>, x: Strategy, t: nat, c: nat)
    requires t < |trucks| && c < |customers|
    ensures KeysBefore(trucks, customers, x, t, c + 1) == KeysBefore(trucks, customers, x, t, c) + {KeyOf(trucks, customers, x, t, c)}
  {
    var k := KeyOf(trucks, customers, x, t, c);
    assert k in KeysBefore(trucks, customers, x, t, c + 1);
  }

  lemma KeysBeforeRow(trucks: seq<State>, customers: seq<State>, x: Strategy, t: nat)
    ensures KeysBefore(trucks, customers, x, t, |customers|) == KeysBefore(trucks, customers, x, t + 1, 0)
  {
  }

  /** Costs read from `cache` for customer `c`, one per truck. */
  function ColumnOf(cache: map<PathKey, string>, trucks: seq<State>, customers: seq<State>, x: Strategy, c: nat): (col: seq<Cost>)
    requires Covers(cache, trucks, customers, x) && c < |customers|
    ensures |col| == |trucks|
    ensures forall t :: 0 <= t < |trucks| ==> col[t] == ParseCost(cache[KeyOf(trucks, customers, x, t, c)])
  {
    seq(|trucks|, t requires 0 <= t < |trucks| => ParseCost(cache[KeyOf(trucks, customers, x, t, c)]))
  }

  function ColumnsOf(cache: map<PathKey, string>, trucks: seq<State>, customers: seq<State>, x: Strategy): (cols: seq<seq<Cost>>)
    requires Covers(cache, trucks, customers, x)
    ensures |cols| == |customers|
    ensures forall c :: 0 <= c < |customers| ==> cols[c] == ColumnOf(cache, trucks, customers, x, c)
  {
    seq(|customers|, c requires 0 <= c < |customers| => ColumnOf(cache, trucks, customers, x, c))
  }

  /** The columns of a matrix filled from `cache` are the columns of the cache. */
  lemma MatrixColumns(costMatrix: array2<Cost>, cache: map<PathKey, string>, trucks: seq<State>, customers: seq<State>, x: Strategy)
    requires Covers(cache, trucks, customers, x)
    requires costMatrix.Length0 == |trucks| && costMatrix.Length1 == |customers|
    requires forall t, c :: 0 <= t < |trucks| && 0 <= c < |customers| ==> costMatrix[t, c] == ParseCost(cache[KeyOf(trucks, customers, x, t, c)])
    ensures forall c :: 0 <= c < |customers| ==> Column(costMatrix, c) == ColumnsOf(cache, trucks, customers, x)[c]
  {
    forall c | 0 <= c < |customers|
      ensures Column(costMatrix, c) == ColumnsOf(cache, trucks, customers, x)[c]
    {
      assert Column(costMatrix, c) == ColumnOf(cache, trucks, customers, x, c);
    }
  }

  /** Keys added in two rounds are those of the first round and those of the second. */
  lemma NewKeys(a: set<PathKey>, b: set<PathKey>, c: set<PathKey>)
    requires a <= b <= c
    ensures |c - a| == |b - a| + |c - b|
  {
    assert c - a == (b - a) + (c - b);
  }

  // ------------------------------------------------------------------
  // The class

  /** `DeliveryPlanner`. `searches` counts the calls of `path`, so that
      what the cache saves can be stated. */
  class DeliveryPlanner {
    const stores: seq<State>
    const customers: seq<State>
    const trucks: seq<State>
    const ds: DeliverySearch
    const strategy: Strategy
    var pathCache: map<PathKey, string>
    var warnings: seq<Warning>
    ghost var searches: nat

    /** Every cached text is an answer of `path` for its key, which names the
        planner's own strategy. The quantifier is triggered only by `Cached`,
        so proofs that do not look into an entry do not unfold its answer. */
    ghost predicate Valid()
      reads this`pathCache
    {
      forall k {:trigger Cached(k)} :: Cached(k) ==>
        k.strategy == strategy && Answer(ds.traffic, ds.tunnels, k.truck, k.customer, k.strategy, pathCache[k])
    }

    ghost predicate Cached(k: PathKey)
      reads this`pathCache
    {
      k in pathCache
    }

    function Key(t: nat, c: nat): PathKey
      requires t < |trucks| && c < |customers|
    {
      KeyOf(trucks, customers, strategy, t, c)
    }

    predicate AllCached()
      reads this`pathCache
    {
      Covers(pathCache, trucks, customers, strategy)
    }

    /** Column `c` of the cost matrix, as the cache gives it. */
    function CostColumn(c: nat): (col: seq<Cost>)
      requires AllCached() && c < |customers|
      reads this`pathCache
    {
      ColumnOf(pathCache, trucks, customers, strategy, c)
    }

    function CostColumns(): (cols: seq<seq<Cost>>)
      requires AllCached()
      reads this`pathCache
    {
      ColumnsOf(pathCache, trucks, customers, strategy)
    }

    /** The warnings for the unassigned customers among `us`. */
    function WarningsFor(us: seq<nat>): (w: seq<Warning>)
      requires forall k :: 0 <= k < |us| ==> us[k] < |customers|
      ensures |w| == |us|
      ensures forall k :: 0 <= k < |us| ==> w[k] == Unreachable(us[k], customers[us[k]])
    {
      seq(|us|, k requires 0 <= k < |us| => Unreachable(us[k], customers[us[k]]))
    }

    /** One more customer adds its warning, if it gets one. */
    lemma WarningsStep(cols: seq<seq<Cost>>, c: nat)
      requires c < |cols| == |customers|
      ensures WarningsFor(Unassigned(cols, c + 1)) ==
        WarningsFor(Unassigned(cols, c)) + (if BestTruck(cols[c]) == -1 then [Unreachable(c, customers[c])] else [])
    {
    }

    constructor(stores: seq<State>, customers: seq<State>, trucks: seq<State>, ds: DeliverySearch, strategy: Strategy)
      ensures this.stores == stores && this.customers == customers && this.trucks == trucks
      ensures this.ds == ds && this.strategy == strategy
      ensures pathCache == map[] && warnings == [] && searches == 0
      ensures Valid()
    {
      this.stores := stores;
      this.customers := customers;
      this.trucks := trucks;
      this.ds := ds;
      this.strategy := strategy;
      pathCache := map[];
      warnings := [];
      searches := 0;
    }

    /** Every entry of the cached cost matrix is the cost a search answers. */
    lemma ColumnsAnswered()
      requires Valid() && AllCached()
      ensures MatrixRead(ds.traffic, ds.tunnels, trucks, customers, strategy, CostColumns())
    {
      var cols := CostColumns();
      forall c, t | 0 <= c < |customers| && 0 <= t < |trucks|
        ensures CostAnswer(ds.traffic, ds.tunnels, trucks[t], customers[c], strategy, cols[c][t])
      {
        assert Cached(Key(t, c));
        AnswerCost(ds.traffic, ds.tunnels, trucks[t], customers[c], strategy, pathCache[Key(t, c)]);
      }
    }

    /** For every code but ID, customer `c` gets a truck exactly when some
        truck can reach it; for UC, AS1 and AS2 the cost of the truck it
        gets is no more than that of any plan from any truck to it. */
    lemma AssignedIffReachable(c: nat)
      requires Valid() && AllCached() && c < |customers|
      ensures var b := BestTruck(CostColumn(c));
        strategy != ID ==>
          (b != -1 <==> exists t :: 0 <= t < |trucks| && GoalReachable(ProblemOf(ds.traffic, ds.tunnels, trucks[t], customers[c])))
      ensures var b := BestTruck(CostColumn(c));
        b != -1 && strategy in {UC, AS1, AS2} ==>
          forall t, plan :: 0 <= t < |trucks| && ReachesGoal(ProblemOf(ds.traffic, ds.tunnels, trucks[t], customers[c]), plan) ==>
            var P := ProblemOf(ds.traffic, ds.tunnels, trucks[t], customers[c]);
            Le(CostColumn(c)[b], CastCost(Run(P, Start(P), plan).value.cost))
    {
      var col := CostColumn(c);
      forall t | 0 <= t < |trucks|
        ensures CostAnswer(ds.traffic, ds.tunnels, trucks[t], customers[c], strategy, col[t])
      {
        assert Cached(Key(t, c));
        AnswerCost(ds.traffic, ds.tunnels, trucks[t], customers[c], strategy, pathCache[Key(t, c)]);
      }
      BestTruckFacts(col);
      forall t | 0 <= t < |trucks|
        ensures strategy != ID ==> (col[t].Inf? <==> !GoalReachable(ProblemOf(ds.traffic, ds.tunnels, trucks[t], customers[c])))
        ensures strategy in {UC, AS1, AS2} ==> var P := ProblemOf(ds.traffic, ds.tunnels, trucks[t], customers[c]);
          forall plan :: ReachesGoal(P, plan) ==> Le(col[t], CastCost(Run(P, Start(P), plan).value.cost))
      {
        CostAnswerFacts(ds.traffic, ds.tunnels, trucks[t], customers[c], strategy, col[t]);
      }
    }

    /** The lookup of `computeCostMatrix`: the cached text of key `(t, c)`
        when there is one; otherwise the text of a fresh `path`, which is
        stored. */
    method CachedPath(t: nat, c: nat) returns (pathStr: string)
      requires Valid() && t < |trucks| && c < |customers|
      modifies this`pathCache, this`searches, ds, ds.h1, ds.h2
      ensures Valid()
      ensures pathCache == old(pathCache)[Key(t, c) := pathStr]
      ensures Key(t, c) in old(pathCache) ==> pathStr == old(pathCache)[Key(t, c)]
      ensures Key(t, c) in old(pathCache) ==> searches == old(searches)
      ensures Key(t, c) !in old(pathCache) ==> searches == old(searches) + 1
    {
      var key := Key(t, c);
      if key in pathCache {
        pathStr := pathCache[key];
        assert pathCache[key := pathStr] == pathCache;
      } else {
        var r;
        r, pathStr := Path(ds, trucks[t], customers[c], strategy);
        pathCache := pathCache[key := pathStr];
        searches := searches + 1;
        forall k | Cached(k)
          ensures k.strategy == strategy && Answer(ds.traffic, ds.tunnels, k.truck, k.customer, k.strategy, pathCache[k])
        {
          if k != key {
            assert old(Cached(k));
          }
        }
      }
    }

    /** `computeCostMatrix`: entry `(t, c)` is the cost read from the cached
        text of key `(t, c)`. Old entries stay, the keys of every pair are
        added and no other, and the search runs once per key that was
        missing. */
    method ComputeCostMatrix() returns (costMatrix: array2<Cost>)
      requires Valid()
      modifies this`pathCache, this`searches, ds, ds.h1, ds.h2
      ensures Valid() && AllCached()
      ensures fresh(costMatrix) && costMatrix.Length0 == |trucks| && costMatrix.Length1 == |customers|
      ensures forall t, c :: 0 <= t < |trucks| && 0 <= c < |customers| ==> costMatrix[t, c] == ParseCost(pathCache[Key(t, c)])
      ensures forall k :: k in old(pathCache) ==> k in pathCache && pathCache[k] == old(pathCache)[k]
      ensures pathCache.Keys == old(pathCache).Keys + KeysBefore(trucks, customers, strategy, |trucks|, 0)
    {
      costMatrix := new Cost[|trucks|, |customers|]((_, _) => Inf);
      for t := 0 to |trucks|
        invariant Valid()
        invariant forall t', c :: 0 <= t' < t && 0 <= c < |customers| ==>
          Key(t', c) in pathCache && costMatrix[t', c] == ParseCost(pathCache[Key(t', c)])
        invariant forall k :: k in old(pathCache) ==> k in pathCache && pathCache[k] == old(pathCache)[k]
        invariant pathCache.Keys == old(pathCache).Keys + KeysBefore(trucks, customers, strategy, t, 0)
      {
        FillRow(costMatrix, t);
        KeysBeforeRow(trucks, customers, strategy, t);
      }
    }

    /** Row `t` of `computeCostMatrix`. */
    method FillRow(costMatrix: array2<Cost>, t: nat)
      requires Valid() && t < |trucks| == costMatrix.Length0 && costMatrix.Length1 == |customers|
      requires pathCache.Keys >= KeysBefore(trucks, customers, strategy, t, 0)
      modifies costMatrix, this`pathCache, this`searches, ds, ds.h1, ds.h2
      ensures Valid()
      ensures forall t', c :: 0 <= t' < costMatrix.Length0 && t' != t && 0 <= c < |customers| ==> costMatrix[t', c] == old(costMatrix[t', c])
      ensures forall c :: 0 <= c < |customers| ==> Key(t, c) in pathCache && costMatrix[t, c] == ParseCost(pathCache[Key(t, c)])
      ensures forall k :: k in old(pathCache) ==> k in pathCache && pathCache[k] == old(pathCache)[k]
      ensures pathCache.Keys == old(pathCache).Keys + KeysBefore(trucks, customers, strategy, t, |customers|)
    {
      for c := 0 to |customers|
        invariant Valid()
        invariant forall t', c' :: 0 <= t' < costMatrix.Length0 && t' != t && 0 <= c' < |customers| ==> costMatrix[t', c'] == old(costMatrix[t', c'])
        invariant forall c' :: 0 <= c' < c ==> Key(t, c') in pathCache && costMatrix[t, c'] == ParseCost(pathCache[Key(t, c')])
        invariant forall k :: k in old(pathCache) ==> k in pathCache && pathCache[k] == old(pathCache)[k]
        invariant pathCache.Keys == old(pathCache).Keys + KeysBefore(trucks, customers, strategy, t, c)
      {
        var pathStr := CachedPath(t, c);
        KeysBeforeStep(trucks, customers, strategy, t, c);
        costMatrix[t, c] := ParseCost(pathStr);
      }
    }

    /** `greedyAssignment`: `findBestTruck` on every column of the matrix
        just computed; a pair for each customer with a best truck, a warning
        for each without. */
    method GreedyAssignment() returns (assignments: seq<Assignment>)
      requires Valid()
      modifies this`pathCache, this`searches, this`warnings, ds, ds.h1, ds.h2
      ensures Valid() && AllCached()
      ensures forall k :: k in old(pathCache) ==> k in pathCache && pathCache[k] == old(pathCache)[k]
      ensures pathCache.Keys == old(pathCache).Keys + KeysBefore(trucks, customers, strategy, |trucks|, 0)
      ensures assignments == GreedyPairs(CostColumns(), |customers|)
      ensures warnings == old(warnings) + WarningsFor(Unassigned(CostColumns(), |customers|))
    {
      var costMatrix := ComputeCostMatrix();
      MatrixColumns(costMatrix, pathCache, trucks, customers, strategy);
      assignments := PickTrucks(costMatrix, CostColumns());
    }

    /** The loop of `greedyAssignment` over the customers of `costMatrix`,
        whose columns are `cols`. */
    method PickTrucks(costMatrix: array2<Cost>, ghost cols: seq<seq<Cost>>) returns (assignments: seq<Assignment>)
      requires costMatrix.Length1 == |customers| == |cols|
      requires forall c :: 0 <= c < |customers| ==> Column(costMatrix, c) == cols[c]
      modifies this`warnings
      ensures assignments == GreedyPairs(cols, |customers|)
      ensures warnings == old(warnings) + WarningsFor(Unassigned(cols, |customers|))
    {
      assignments := [];
      for c := 0 to |customers|
        invariant assignments == GreedyPairs(cols, c)
        invariant warnings == old(warnings) + WarningsFor(Unassigned(cols, c))
      {
        var bestTruck := FindBestTruck(costMatrix, c);
        if bestTruck != -1 {
          assignments := assignments + [Assignment(bestTruck, c)];
        } else {
          warnings := warnings + [Unreachable(c, customers[c])];
        }
        WarningsStep(cols, c);
      }
    }

    /** `assign`: the greedy assignment, whatever the size of the problem. */
    method Assign() returns (assignments: seq<Assignment>)
      requires Valid()
      modifies this`pathCache, this`searches, this`warnings, ds, ds.h1, ds.h2
      ensures Valid() && AllCached()
      ensures forall k :: k in old(pathCache) ==> k in pathCache && pathCache[k] == old(pathCache)[k]
      ensures pathCache.Keys == old(pathCache).Keys + KeysBefore(trucks, customers, strategy, |trucks|, 0)
      ensures assignments == GreedyPairs(CostColumns(), |customers|)
      ensures warnings == old(warnings) + WarningsFor(Unassigned(CostColumns(), |customers|))
    {
      if |customers| <= 10 && |trucks| <= 3 {
        assignments := GreedyAssignment();
      } else {
        assignments := GreedyAssignment();
      }
    }

    /** How many of the first `n` pairs miss the cache. */
    function Misses(assignments: seq<Assignment>, n: nat): nat
      requires n <= |assignments| && PairsInRange(assignments, |trucks|, |customers|)
      reads this`pathCache
      decreases n
    {
      if n == 0 then 0
      else
        var a := assignments[n - 1];
        Misses(assignments, n - 1) + (if Key(a.truck, a.customer) in pathCache then 0 else 1)
    }

    /** The lookup of `getStats`: the cached text of key `(t, c)` when there
        is one, otherwise the text of a fresh `path`, which is not stored. */
    method PeekPath(t: nat, c: nat) returns (pathStr: string)
      requires Valid() && t < |trucks| && c < |customers|
      modifies this`searches, ds, ds.h1, ds.h2
      ensures Read(1, ds.traffic, ds.tunnels, trucks[t], customers[c], strategy, ParseCost(pathStr))
      ensures Key(t, c) in pathCache ==> pathStr == pathCache[Key(t, c)] && searches == old(searches)
      ensures Key(t, c) !in pathCache ==> searches == old(searches) + 1
    {
      var key := Key(t, c);
      if key in pathCache {
        pathStr := pathCache[key];
        assert Cached(key);
      } else {
        var r;
        r, pathStr := Path(ds, trucks[t], customers[c], strategy);
        searches := searches + 1;
      }
      ReadAnswer(ds.traffic, ds.tunnels, trucks[t], customers[c], strategy, pathStr);
    }

    /** `getStats`: the pair count, the costs added up (each read as
        `PeekPath` finds it), and the largest and smallest non-zero number
        of deliveries per truck. `costs` are the costs read, one per pair. */
    method GetStats(assignments: seq<Assignment>) returns (stats: AssignmentStats, ghost costs: seq<Cost>)
      requires Valid() && PairsInRange(assignments, |trucks|, |customers|)
      modifies this`searches, ds, ds.h1, ds.h2
      ensures |costs| == |assignments|
      ensures forall k :: 0 <= k < |assignments| ==> var a := assignments[k];
        Read(1, ds.traffic, ds.tunnels, trucks[a.truck], customers[a.customer], strategy, costs[k])
      ensures forall k :: 0 <= k < |assignments| ==> var a := assignments[k];
        Key(a.truck, a.customer) in pathCache ==> costs[k] == ParseCost(pathCache[Key(a.truck, a.customer)])
      ensures stats == StatsOf(assignments, |trucks|, costs)
      ensures searches == old(searches) + Misses(assignments, |assignments|)
    {
      if |assignments| == 0 {
        StatsOfEmpty(|trucks|);
        return AssignmentStats(0, Fin(0), 0, 0), [];
      }
      var deliveriesPerTruck := new nat[|trucks|](_ => 0);
      assert deliveriesPerTruck[..] == Deliveries(assignments, 0, |trucks|);
      var totalCost;
      totalCost, costs := Tally(assignments, deliveriesPerTruck);
      var maxDeliveries, minDeliveries := CountExtremes(deliveriesPerTruck);
      stats := AssignmentStats(|assignments|, totalCost, maxDeliveries, minDeliveries);
    }

    /** The loop of `getStats`: one delivery per pair for its truck, and the
        cost of every pair added to the total. */
    method Tally(assignments: seq<Assignment>, deliveriesPerTruck: array<nat>) returns (totalCost: Cost, ghost costs: seq<Cost>)
      requires Valid() && PairsInRange(assignments, |trucks|, |customers|)
      requires deliveriesPerTruck.Length == |trucks|
      requires deliveriesPerTruck[..] == Deliveries(assignments, 0, |trucks|)
      modifies deliveriesPerTruck, this`searches, ds, ds.h1, ds.h2
      ensures deliveriesPerTruck[..] == Deliveries(assignments, |assignments|, |trucks|)
      ensures |costs| == |assignments| && totalCost == SumCosts(costs)
      ensures forall k :: 0 <= k < |assignments| ==> var a := assignments[k];
        Read(1, ds.traffic, ds.tunnels, trucks[a.truck], customers[a.customer], strategy, costs[k])
      ensures forall k :: 0 <= k < |assignments| ==> var a := assignments[k];
        Key(a.truck, a.customer) in pathCache ==> costs[k] == ParseCost(pathCache[Key(a.truck, a.customer)])
      ensures searches == old(searches) + Misses(assignments, |assignments|)
    {
      costs := [];
      totalCost := Fin(0);
      for k := 0 to |assignments|
        invariant |costs| == k
        invariant deliveriesPerTruck[..] == Deliveries(assignments, k, |trucks|)
        invariant totalCost == SumCosts(costs) && Tallied(assignments, costs)
        invariant searches == old(searches) + Misses(assignments, k)
      {
        totalCost, costs := TallyOne(assignments, deliveriesPerTruck, k, totalCost, costs);
      }
      TalliedMeans(assignments, costs);
      forall k | 0 <= k < |assignments|
        ensures PairTallied(0, assignments[k], costs[k])
      {
        assert PairTallied(1, assignments[k], costs[k]);
      }
    }

    /** The cost read for one pair: a cost answer for it, and the cost of
        the cached text when the pair is cached. Written one recursive call
        away, as `Read` is, so that carrying it keeps `parseCost` folded. */
    ghost predicate PairTallied(depth: nat, a: Assignment, c: Cost)
      requires a.truck < |trucks| && a.customer < |customers|
      reads this`pathCache
      decreases depth
    {
      if depth == 0 then
        && Read(1, ds.traffic, ds.tunnels, trucks[a.truck], customers[a.customer], strategy, c)
        && (Key(a.truck, a.customer) in pathCache ==> c == ParseCost(pathCache[Key(a.truck, a.customer)]))
      else PairTallied(depth - 1, a, c)
    }

    /** The costs read for the first pairs, each `PairTallied`. */
    ghost predicate Tallied(assignments: seq<Assignment>, costs: seq<Cost>)
      requires PairsInRange(assignments, |trucks|, |customers|)
      reads this`pathCache
      decreases |costs|
    {
      && |costs| <= |assignments|
      && (costs == [] ||
          (Tallied(assignments, costs[..|costs| - 1]) && PairTallied(1, assignments[|costs| - 1], costs[|costs| - 1])))
    }

    lemma {:induction false} TalliedMeans(assignments: seq<Assignment>, costs: seq<Cost>)
      requires PairsInRange(assignments, |trucks|, |customers|) && Tallied(assignments, costs)
      ensures forall j :: 0 <= j < |costs| ==> PairTallied(1, assignments[j], costs[j])
      decreases |costs|
    {
      if costs != [] {
        var front := costs[..|costs| - 1];
        TalliedMeans(assignments, front);
        forall j | 0 <= j < |costs|
          ensures PairTallied(1, assignments[j], costs[j])
        {
          if j < |front| {
            assert costs[j] == front[j];
          }
        }
      }
    }

    /** One turn of the loop of `getStats`, for pair `k`. */
    method TallyOne(assignments: seq<Assignment>, deliveriesPerTruck: array<nat>, k: nat, totalCost: Cost, ghost costs: seq<Cost>)
      returns (totalCost': Cost, ghost costs': seq<Cost>)
      requires Valid() && PairsInRange(assignments, |trucks|, |customers|)
      requires k < |assignments| && |costs| == k
      requires deliveriesPerTruck.Length == |trucks|
      requires deliveriesPerTruck[..] == Deliveries(assignments, k, |trucks|)
      requires totalCost == SumCosts(costs) && Tallied(assignments, costs)
      modifies deliveriesPerTruck, this`searches, ds, ds.h1, ds.h2
      ensures deliveriesPerTruck[..] == Deliveries(assignments, k + 1, |trucks|)
      ensures |costs'| == k + 1 && totalCost' == SumCosts(costs') && Tallied(assignments, costs')
      ensures searches == old(searches) + Misses(assignments, k + 1) - Misses(assignments, k)
    {
      var truckIdx := assignments[k].truck;
      var customerIdx := assignments[k].customer;
      Count(deliveriesPerTruck, assignments, k);
      var pathStr := PeekPath(truckIdx, customerIdx);
      var cost := ParseCost(pathStr);
      assert PairTallied(0, assignments[k], cost);
      TalliedStep(assignments, costs, cost);
      totalCost' := Add(totalCost, cost);
      costs' := costs + [cost];
    }

    /** A cost read for the next pair extends what was tallied. */
    lemma TalliedStep(assignments: seq<Assignment>, costs: seq<Cost>, cost: Cost)
      requires PairsInRange(assignments, |trucks|, |customers|)
      requires Tallied(assignments, costs) && |costs| < |assignments|
      requires PairTallied(1, assignments[|costs|], cost)
      ensures Tallied(assignments, costs + [cost])
      ensures SumCosts(costs + [cost]) == Add(SumCosts(costs), cost)
    {
      assert (costs + [cost])[..|costs|] == costs;
    }

    /** `getWarnings`: the warnings collected so far. */
    function GetWarnings(): (w: seq<Warning>)
      reads this`warnings
      ensures w == warnings
    {
      warnings
    }

    /** `clearCache`: the cache is emptied and nothing else changes. */
    method ClearCache()
      modifies this`pathCache
      ensures pathCache == map[]
      ensures Valid()
    {
      pathCache := map[];
    }
  }

  /** `deliveriesPerTruck[truckIdx]++` for pair `k`. */
  method Count(deliveriesPerTruck: array<nat>, assignments: seq<Assignment>, k: nat)
    requires k < |assignments| && assignments[k].truck < deliveriesPerTruck.Length
    requires deliveriesPerTruck[..] == Deliveries(assignments, k, deliveriesPerTruck.Length)
    modifies deliveriesPerTruck
    ensures deliveriesPerTruck[..] == Deliveries(assignments, k + 1, deliveriesPerTruck.Length)
  {
    var t := assignments[k].truck;
    deliveriesPerTruck[t] := deliveriesPerTruck[t] + 1;
    assert forall i :: 0 <= i < deliveriesPerTruck.Length ==>
      deliveriesPerTruck[..][i] == old(deliveriesPerTruck[..])[i] + (if i == t then 1 else 0);
  }
}
