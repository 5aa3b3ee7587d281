/** The planner of src/code/DeliveryPlanner.java. `assign` is the greedy
    choice of the cheapest truck for every customer over a cost matrix
    with one search per pair and no cache; `sequentialAssignment` instead
    takes the globally cheapest (truck, customer) pair, round after round.
    Every search goes through the older `path`, whose breadth-first engine
    throws for any other strategy; the planner does not catch it, so that
    failure ends the whole call. */
module LegacyPlanner {
  import opened Wrappers
  import opened Costs
  import opened Grid
  import opened SearchModel
  import opened Strategies
  import opened Actions
  import opened Tunnels
  import opened DeliveryInput
  import opened PlannerCommon
  import opened LegacyDelivery
  import Delivery
  import BackendPlanner

  /** What `stores.get(i)` throws for an index past the end. */
  const OutOfBounds := "index out of bounds"

  // ------------------------------------------------------------------
  // Costs read back from `path`

  /** `cost` is what `parseCost` reads from a text the older `path` may
      return for the search from `s` to `g`. */
  ghost predicate Read(traffic: Traffic, ts: seq<Tunnel>, s: State, g: State, cost: Cost) {
    exists r :: Promised(traffic, ts, s, g, r) && cost == TextCost(r)
  }

  /** The cost read from the text of a promised result is such a cost. */
  lemma ReadPath(traffic: Traffic, ts: seq<Tunnel>, s: State, g: State, r: SearchResult<Action>)
    requires Promised(traffic, ts, s, g, r)
    ensures Read(traffic, ts, s, g, ParseCost(Delivery.PathText(r)))
  {
    ParseCostOfPath(r);
  }

  /** Without zero traffic levels, a cost read back is +infinity exactly
      when the customer cannot be reached from the start. */
  lemma ReadFacts(traffic: Traffic, ts: seq<Tunnel>, s: State, g: State, cost: Cost)
    requires Read(traffic, ts, s, g, cost) && NoZero(traffic)
    ensures cost.Inf? <==> !GoalReachable(ProblemOf(traffic, ts, s, g))
  {
    var r :| Promised(traffic, ts, s, g, r) && cost == TextCost(r);
    PromisedCost(traffic, ts, s, g, r);
  }

  // ------------------------------------------------------------------
  // The globally cheapest pair of one round of `sequentialAssignment`

  /** `(minCost, bestTruck, bestCustomer)` of the nested loops. */
  datatype Pick = Pick(cost: Cost, truck: int, customer: int)

  const NoPick := Pick(Inf, -1, -1)

  /** `(t, c)` comes before `(t', c')` in truck-major order. */
  predicate Earlier(t: int, c: int, t': int, c': int) {
    t < t' || (t == t' && c < c')
  }

  /** One pair of the loop: taken when strictly below the running minimum. */
  function Consider(p: Pick, cost: Cost, t: nat, c: nat): Pick {
    if Lt(cost, p.cost) then Pick(cost, t, c) else p
  }

  /** The inner loop for truck `t` over its first `n` customers, from the
      running pick `p`; a served customer is skipped. */
  function RowPick(row: seq<Cost>, served: set<nat>, t: nat, p: Pick, n: nat): (r: Pick)
    requires n <= |row|
    ensures r == p || (r.truck == t && 0 <= r.customer < n)
    decreases n
  {
    if n == 0 then p
    else
      var q := RowPick(row, served, t, p, n - 1);
      if n - 1 in served then q else Consider(q, row[n - 1], t, n - 1)
  }

  /** The pick after the first `n` trucks of a round whose costs are
      `costs[t][c]`. */
  function GridPick(costs: seq<seq<Cost>>, served: set<nat>, n: nat): (r: Pick)
    requires n <= |costs|
    ensures -1 <= r.truck < n && -1 <= r.customer
    decreases n
  {
    if n == 0 then NoPick
    else RowPick(costs[n - 1], served, n - 1, GridPick(costs, served, n - 1), |costs[n - 1]|)
  }

  /** The inner loop keeps the running pick or replaces it by a strictly
      cheaper unassigned customer of the row, the first of minimal cost;
      no unassigned customer of the row is cheaper than the result. */
  lemma {:induction false} RowPickFacts(row: seq<Cost>, served: set<nat>, t: nat, p: Pick, n: nat)
    requires n <= |row|
    ensures var r := RowPick(row, served, t, p, n);
      && Le(r.cost, p.cost)
      && (r == p || (r.cost.Fin? && Lt(r.cost, p.cost) && r.truck == t && 0 <= r.customer < n
                     && r.customer !in served && row[r.customer] == r.cost
                     && forall c :: 0 <= c < r.customer && c !in served ==> Lt(r.cost, row[c])))
      && (r == p ==> forall c :: 0 <= c < n && c !in served ==> Le(p.cost, row[c]))
      && (forall c :: 0 <= c < n && c !in served ==> Le(r.cost, row[c]))
    decreases n
  {
    if n > 0 {
      RowPickFacts(row, served, t, p, n - 1);
    }
  }

  /** The pick of a round: none, with +infinity, exactly when every
      unassigned customer costs +infinity from every truck; otherwise an
      unassigned pair of minimal, finite cost. */
  lemma {:induction false} GridPickFacts(costs: seq<seq<Cost>>, served: set<nat>, n: nat)
    requires n <= |costs|
    ensures GridPick(costs, served, n).cost.Inf? <==> GridPick(costs, served, n) == NoPick
    ensures GridPick(costs, served, n).cost.Inf? <==>
      forall t, c :: 0 <= t < n && 0 <= c < |costs[t]| && c !in served ==> costs[t][c].Inf?
    ensures var p := GridPick(costs, served, n);
      p.cost.Fin? ==> 0 <= p.truck < n && 0 <= p.customer < |costs[p.truck]|
                      && p.customer !in served && costs[p.truck][p.customer] == p.cost
    ensures var p := GridPick(costs, served, n);
      forall t, c :: 0 <= t < n && 0 <= c < |costs[t]| && c !in served ==> Le(p.cost, costs[t][c])
    decreases n
  {
    if n > 0 {
      var q := GridPick(costs, served, n - 1);
      var row := costs[n - 1];
      var p := GridPick(costs, served, n);
      GridPickFacts(costs, served, n - 1);
      RowPickFacts(row, served, n - 1, q, |row|);
      assert p == RowPick(row, served, n - 1, q, |row|);
      forall t, c | 0 <= t < n && 0 <= c < |costs[t]| && c !in served
        ensures Le(p.cost, costs[t][c])
      {
        if t < n - 1 {
          assert Le(q.cost, costs[t][c]);
        } else {
          assert costs[t] == row;
        }
      }
    }
  }

  /** No unassigned pair costs less than the pick. */
  lemma GridPickLe(costs: seq<seq<Cost>>, served: set<nat>, n: nat, t: nat, c: nat)
    requires n <= |costs| && t < n && c < |costs[t]| && c !in served
    ensures Le(GridPick(costs, served, n).cost, costs[t][c])
  {
    GridPickFacts(costs, served, n);
  }

  /** Ties go to the first pair in truck-major order: every unassigned pair
      before the pick costs strictly more. */
  lemma {:induction false} GridPickFirst(costs: seq<seq<Cost>>, served: set<nat>, n: nat)
    requires n <= |costs|
    ensures var p := GridPick(costs, served, n);
      p.cost.Fin? ==> forall t, c :: (0 <= t < n && 0 <= c < |costs[t]| && c !in served
                                      && Earlier(t, c, p.truck, p.customer)) ==> Lt(p.cost, costs[t][c])
    decreases n
  {
    if n > 0 {
      var q := GridPick(costs, served, n - 1);
      var row := costs[n - 1];
      var p := GridPick(costs, served, n);
      GridPickFirst(costs, served, n - 1);
      RowPickFacts(row, served, n - 1, q, |row|);
      assert p == RowPick(row, served, n - 1, q, |row|);
      if p.cost.Fin? {
        forall t, c | 0 <= t < n && 0 <= c < |costs[t]| && c !in served && Earlier(t, c, p.truck, p.customer)
          ensures Lt(p.cost, costs[t][c])
        {
          if p == q {
            assert q.truck < n - 1 && t <= q.truck;
            assert Earlier(t, c, q.truck, q.customer);
          } else if t < n - 1 {
            GridPickLe(costs, served, n - 1, t, c);
            assert Lt(p.cost, q.cost);
          } else {
            assert costs[t] == row && c < p.customer;
          }
        }
      }
    }
  }

  /** A pick that names a truck or a customer names an unserved pair in range. */
  lemma GridPickValid(costs: seq<seq<Cost>>, served: set<nat>, n: nat)
    requires n <= |costs|
    ensures var p := GridPick(costs, served, n);
      p.truck != -1 || p.customer != -1 ==>
        0 <= p.truck < n && 0 <= p.customer < |costs[p.truck]| && p.customer !in served
  {
    GridPickFacts(costs, served, n);
  }

  /** The pick of a row ignores entries past the first `n`. */
  lemma {:induction false} RowPickPrefix(row: seq<Cost>, more: seq<Cost>, served: set<nat>, t: nat, p: Pick, n: nat)
    requires n <= |row|
    ensures RowPick(row + more, served, t, p, n) == RowPick(row, served, t, p, n)
    decreases n
  {
    if n > 0 {
      RowPickPrefix(row, more, served, t, p, n - 1);
      assert (row + more)[n - 1] == row[n - 1];
    }
  }

  /** The pick after `n` trucks ignores the rows past the first `n`. */
  lemma {:induction false} GridPickPrefix(costs: seq<seq<Cost>>, more: seq<seq<Cost>>, served: set<nat>, n: nat)
    requires n <= |costs|
    ensures GridPick(costs + more, served, n) == GridPick(costs, served, n)
    decreases n
  {
    if n > 0 {
      GridPickPrefix(costs, more, served, n - 1);
      assert (costs + more)[n - 1] == costs[n - 1];
    }
  }

  /** Every customer below `n` is served. */
  predicate AllServed(served: set<nat>, n: nat)
    decreases n
  {
    n == 0 || (n - 1 in served && AllServed(served, n - 1))
  }

  lemma {:induction false} AllServedMeans(served: set<nat>, n: nat)
    ensures AllServed(served, n) <==> forall c: nat :: c < n ==> c in served
    decreases n
  {
    if n > 0 {
      AllServedMeans(served, n - 1);
    }
  }

  /** An unserved customer below `n` means not all below `n` are served. */
  lemma {:induction false} AllServedMissing(served: set<nat>, n: nat, c: nat)
    requires c < n && c !in served
    ensures !AllServed(served, n)
    decreases n
  {
    if c < n - 1 {
      AllServedMissing(served, n - 1, c);
    }
  }

  /** One more entry continues the pick of a row from the entries before it. */
  lemma RowPickSnoc(row: seq<Cost>, cost: Cost, served: set<nat>, t: nat, p: Pick)
    ensures RowPick(row + [cost], served, t, p, |row| + 1) ==
      var q := RowPick(row, served, t, p, |row|);
      if |row| in served then q else Consider(q, cost, t, |row|)
  {
    RowPickPrefix(row, [cost], served, t, p, |row|);
    assert (row + [cost])[|row|] == cost;
  }

  /** One more row continues the pick from the rows before it. */
  lemma GridPickSnoc(costs: seq<seq<Cost>>, row: seq<Cost>, served: set<nat>)
    ensures GridPick(costs + [row], served, |costs| + 1) == RowPick(row, served, |costs|, GridPick(costs, served, |costs|), |row|)
  {
    GridPickPrefix(costs, [row], served, |costs|);
    assert (costs + [row])[|costs|] == row;
  }

  // ------------------------------------------------------------------
  // The rounds of `sequentialAssignment`

  /** The state the loop of `sequentialAssignment` carries: the pairs so
      far, `assignedCustomers` and `truckPositions`. */
  datatype Round = Round(assignments: seq<Assignment>, served: set<nat>, positions: map<nat, State>)

  /** Before the first round: no pair, and every truck at its start. */
  function StartRound(trucks: seq<State>): Round {
    Round([], {}, map t: nat | t < |trucks| :: trucks[t])
  }

  /** The end of one round whose pick is `p`: nothing changes when there is
      no pair; otherwise the pair is recorded, its customer served and its
      truck moved to its store, which `stores.get` fails to find when the
      store list is shorter. */
  function Advance(st: Round, p: Pick, stores: seq<State>): Result<Round>
    requires -1 <= p.truck && -1 <= p.customer
  {
    if p.truck == -1 || p.customer == -1 then Success(st)
    else if p.truck >= |stores| then Failure(OutOfBounds)
    else Success(Round(st.assignments + [Assignment(p.truck, p.customer)], st.served + {p.customer},
                       st.positions[p.truck := stores[p.truck]]))
  }

  /** The state after the first `n` rounds of `sequentialAssignment`, where
      round `k` observed cost `obs[k][t][c]` for truck `t` and customer `c`. */
  function Sequential(obs: seq<seq<seq<Cost>>>, trucks: seq<State>, stores: seq<State>, n: nat): Result<Round>
    requires n <= |obs|
    decreases n
  {
    if n == 0 then Success(StartRound(trucks))
    else
      var prev := Sequential(obs, trucks, stores, n - 1);
      if prev.Failure? then prev
      else Advance(prev.value, GridPick(obs[n - 1], prev.value.served, |obs[n - 1]|), stores)
  }

  /** Every round observed a cost per truck and customer. */
  predicate Shaped(obs: seq<seq<seq<Cost>>>, trucks: nat, customers: nat) {
    forall k :: 0 <= k < |obs| ==>
      |obs[k]| == trucks && forall t :: 0 <= t < trucks ==> |obs[k][t]| == customers
  }

  lemma ShapedStep(obs: seq<seq<seq<Cost>>>, costs: seq<seq<Cost>>, trucks: nat, customers: nat)
    requires Shaped(obs, trucks, customers) && |costs| == trucks
    requires forall t :: 0 <= t < trucks ==> |costs[t]| == customers
    ensures Shaped(obs + [costs], trucks, customers)
  {
    var next := obs + [costs];
    forall k | 0 <= k < |next|
      ensures |next[k]| == trucks && forall t :: 0 <= t < trucks ==> |next[k][t]| == customers
    {
      if k < |obs| {
        assert next[k] == obs[k];
      } else {
        assert next[k] == costs;
      }
    }
  }

  /** Rounds past the first `n` do not change the state after `n`. */
  lemma {:induction false} SequentialPrefix(obs: seq<seq<seq<Cost>>>, more: seq<seq<seq<Cost>>>,
                                            trucks: seq<State>, stores: seq<State>, n: nat)
    requires n <= |obs|
    ensures Sequential(obs + more, trucks, stores, n) == Sequential(obs, trucks, stores, n)
    decreases n
  {
    if n > 0 {
      SequentialPrefix(obs, more, trucks, stores, n - 1);
      assert (obs + more)[n - 1] == obs[n - 1];
    }
  }

  /** Some pair of `assignments` names customer `c`. */
  predicate NamesCustomer(assignments: seq<Assignment>, c: nat) {
    exists k :: 0 <= k < |assignments| && assignments[k].customer == c
  }

  /** Some pair of `assignments` names truck `t`. */
  predicate NamesTruck(assignments: seq<Assignment>, t: nat) {
    exists k :: 0 <= k < |assignments| && assignments[k].truck == t
  }

  lemma NamesSnoc(assignments: seq<Assignment>, a: Assignment, c: nat, t: nat)
    ensures NamesCustomer(assignments + [a], c) <==> NamesCustomer(assignments, c) || a.customer == c
    ensures NamesTruck(assignments + [a], t) <==> NamesTruck(assignments, t) || a.truck == t
  {
    var next := assignments + [a];
    assert next[|assignments|] == a;
    if NamesCustomer(assignments, c) {
      var k :| 0 <= k < |assignments| && assignments[k].customer == c;
      assert next[k] == assignments[k];
    }
    if NamesCustomer(next, c) {
      var k :| 0 <= k < |next| && next[k].customer == c;
      if k < |assignments| {
        assert next[k] == assignments[k];
      }
    }
    if NamesTruck(assignments, t) {
      var k :| 0 <= k < |assignments| && assignments[k].truck == t;
      assert next[k] == assignments[k];
    }
    if NamesTruck(next, t) {
      var k :| 0 <= k < |next| && next[k].truck == t;
      if k < |assignments| {
        assert next[k] == assignments[k];
      }
    }
  }

  /** After any number of rounds a customer is served exactly when some
      pair names it, and every pair is in range. */
  lemma {:induction false} SequentialNamed(obs: seq<seq<seq<Cost>>>, trucks: seq<State>, stores: seq<State>,
                                           customers: nat, n: nat)
    requires n <= |obs| && Shaped(obs, |trucks|, customers)
    ensures Sequential(obs, trucks, stores, n).Success? ==>
      var st := Sequential(obs, trucks, stores, n).value;
      && PairsInRange(st.assignments, |trucks|, customers)
      && (forall c: nat :: c in st.served <==> NamesCustomer(st.assignments, c))
    decreases n
  {
    if n > 0 && Sequential(obs, trucks, stores, n).Success? {
      SequentialNamed(obs, trucks, stores, customers, n - 1);
      var prev := Sequential(obs, trucks, stores, n - 1).value;
      var p := GridPick(obs[n - 1], prev.served, |obs[n - 1]|);
      GridPickValid(obs[n - 1], prev.served, |obs[n - 1]|);
      var st := Sequential(obs, trucks, stores, n).value;
      if p.truck != -1 && p.customer != -1 {
        var a := Assignment(p.truck, p.customer);
        assert st.assignments == prev.assignments + [a] && st.served == prev.served + {p.customer};
        forall c: nat ensures c in st.served <==> NamesCustomer(st.assignments, c) {
          NamesSnoc(prev.assignments, a, c, 0);
        }
      }
    }
  }

  /** No customer is named by two pairs. */
  predicate DistinctCustomers(assignments: seq<Assignment>) {
    forall j, k :: 0 <= j < k < |assignments| ==> assignments[j].customer != assignments[k].customer
  }

  lemma DistinctSnoc(assignments: seq<Assignment>, a: Assignment)
    requires DistinctCustomers(assignments) && !NamesCustomer(assignments, a.customer)
    ensures DistinctCustomers(assignments + [a])
  {
    var next := assignments + [a];
    forall j, k | 0 <= j < k < |next|
      ensures next[j].customer != next[k].customer
    {
      assert next[j] == assignments[j];
      if k < |assignments| {
        assert next[k] == assignments[k];
      }
    }
  }

  /** After any number of rounds no customer is named by two pairs, so
      there are as many served customers as pairs. */
  lemma {:induction false} SequentialServed(obs: seq<seq<seq<Cost>>>, trucks: seq<State>, stores: seq<State>,
                                            customers: nat, n: nat)
    requires n <= |obs| && Shaped(obs, |trucks|, customers)
    ensures Sequential(obs, trucks, stores, n).Success? ==>
      var st := Sequential(obs, trucks, stores, n).value;
      |st.served| == |st.assignments| && DistinctCustomers(st.assignments)
    decreases n
  {
    if n > 0 && Sequential(obs, trucks, stores, n).Success? {
      SequentialServed(obs, trucks, stores, customers, n - 1);
      SequentialNamed(obs, trucks, stores, customers, n - 1);
      var prev := Sequential(obs, trucks, stores, n - 1).value;
      var p := GridPick(obs[n - 1], prev.served, |obs[n - 1]|);
      GridPickValid(obs[n - 1], prev.served, |obs[n - 1]|);
      if p.truck != -1 && p.customer != -1 {
        DistinctSnoc(prev.assignments, Assignment(p.truck, p.customer));
      }
    }
  }

  /** After any number of rounds every truck has a position: its store
      once some pair names it, its start otherwise. */
  lemma {:induction false} SequentialPositions(obs: seq<seq<seq<Cost>>>, trucks: seq<State>, stores: seq<State>,
                                               customers: nat, n: nat)
    requires n <= |obs| && Shaped(obs, |trucks|, customers)
    ensures Sequential(obs, trucks, stores, n).Success? ==>
      var st := Sequential(obs, trucks, stores, n).value;
      && (forall t: nat :: t in st.positions <==> t < |trucks|)
      && (forall t: nat :: t < |trucks| ==>
            if NamesTruck(st.assignments, t) then t < |stores| && st.positions[t] == stores[t]
            else st.positions[t] == trucks[t])
    decreases n
  {
    if n > 0 && Sequential(obs, trucks, stores, n).Success? {
      SequentialPositions(obs, trucks, stores, customers, n - 1);
      var prev := Sequential(obs, trucks, stores, n - 1).value;
      var p := GridPick(obs[n - 1], prev.served, |obs[n - 1]|);
      var st := Sequential(obs, trucks, stores, n).value;
      if p.truck != -1 && p.customer != -1 {
        var a := Assignment(p.truck, p.customer);
        assert p.truck < |obs[n - 1]| == |trucks|;
        assert st.assignments == prev.assignments + [a];
        forall t: nat | t < |trucks|
          ensures if NamesTruck(st.assignments, t) then t < |stores| && st.positions[t] == stores[t]
                  else st.positions[t] == trucks[t]
        {
          NamesSnoc(prev.assignments, a, 0, t);
        }
      }
    }
  }

  /** `a` is the pair a round takes from the costs `costs` when `served` are
      already served: an unserved pair of finite cost, no larger than that
      of any unserved pair and strictly smaller than that of every unserved
      pair before it in truck-major order. */
  predicate Cheapest(costs: seq<seq<Cost>>, served: set<nat>, a: Assignment) {
    && a.customer !in served && a.truck < |costs| && a.customer < |costs[a.truck]|
    && costs[a.truck][a.customer].Fin?
    && (forall t, c :: 0 <= t < |costs| && 0 <= c < |costs[t]| && c !in served ==>
          Le(costs[a.truck][a.customer], costs[t][c]))
    && (forall t, c :: (0 <= t < |costs| && 0 <= c < |costs[t]| && c !in served
                        && Earlier(t, c, a.truck, a.customer)) ==> Lt(costs[a.truck][a.customer], costs[t][c]))
  }

  /** Every unserved pair costs +infinity. */
  predicate Stuck(costs: seq<seq<Cost>>, served: set<nat>) {
    forall t, c :: 0 <= t < |costs| && 0 <= c < |costs[t]| && c !in served ==> costs[t][c].Inf?
  }

  /** One round either adds the cheapest pair of its costs or, exactly when
      every unserved pair cost +infinity, changes nothing. */
  lemma SequentialChoice(obs: seq<seq<seq<Cost>>>, trucks: seq<State>, stores: seq<State>, n: nat)
    requires 0 < n <= |obs| && Sequential(obs, trucks, stores, n).Success?
    ensures var prev := Sequential(obs, trucks, stores, n - 1).value;
      var st := Sequential(obs, trucks, stores, n).value;
      st != prev ==> |st.assignments| == |prev.assignments| + 1
                     && Cheapest(obs[n - 1], prev.served, st.assignments[|prev.assignments|])
    ensures var prev := Sequential(obs, trucks, stores, n - 1).value;
      Sequential(obs, trucks, stores, n).value == prev <==> Stuck(obs[n - 1], prev.served)
  {
    var prev := Sequential(obs, trucks, stores, n - 1).value;
    GridPickFacts(obs[n - 1], prev.served, |obs[n - 1]|);
    GridPickFirst(obs[n - 1], prev.served, |obs[n - 1]|);
  }

  // ------------------------------------------------------------------
  // The planner

  /** Every column `c` has an entry per truck, each a cost read back from
      `path` for that truck and customer `c`. */
  ghost predicate ColumnsRead(traffic: Traffic, ts: seq<Tunnel>, trucks: seq<State>, customers: seq<State>, cols: seq<seq<Cost>>) {
    |cols| == |customers| &&
    forall c :: 0 <= c < |cols| ==>
      |cols[c]| == |trucks| &&
      forall t :: 0 <= t < |trucks| ==> Read(traffic, ts, trucks[t], customers[c], cols[c][t])
  }

  /** Without zero traffic levels, the greedy assignment serves customer
      `c` exactly when some truck can reach it. */
  lemma GreedyServedIffReachable(traffic: Traffic, ts: seq<Tunnel>, trucks: seq<State>, customers: seq<State>,
                                 cols: seq<seq<Cost>>, c: nat)
    requires ColumnsRead(traffic, ts, trucks, customers, cols) && NoZero(traffic) && c < |customers|
    ensures var pairs := BackendPlanner.GreedyPairs(cols, |cols|);
      (exists k :: 0 <= k < |pairs| && pairs[k].customer == c)
        <==> exists t :: 0 <= t < |trucks| && GoalReachable(ProblemOf(traffic, ts, trucks[t], customers[c]))
  {
    var pairs := BackendPlanner.GreedyPairs(cols, |cols|);
    var col := cols[c];
    BestTruckFacts(col);
    BackendPlanner.GreedyChoices(cols, |cols|);
    forall t | 0 <= t < |trucks|
      ensures col[t].Inf? <==> !GoalReachable(ProblemOf(traffic, ts, trucks[t], customers[c]))
    {
      ReadFacts(traffic, ts, trucks[t], customers[c], col[t]);
    }
    if BestTruck(col) != -1 {
      BackendPlanner.GreedyComplete(cols, |cols|, c);
    }
  }

  /** One call of `path` from `from` to `to` and the cost read back from
      its text. */
  datatype Reading = Reading(from: State, to: State, cost: Cost)

  /** `DeliveryPlanner` with its final fields; `searches` counts the calls
      of `path` and `readings` records what they gave (ghost state only). */
  class DeliveryPlanner {
    const stores: seq<State>
    const customers: seq<State>
    const trucks: seq<State>
    const ds: LegacyDeliverySearch
    const strategy: Strategy
    ghost var searches: nat
    ghost var readings: set<Reading>

    /** Every recorded reading is a cost `parseCost` reads from a text the
        older `path` may return. */
    ghost predicate Valid()
      reads this`readings
    {
      forall x :: x in readings ==> Read(ds.traffic, ds.tunnels, x.from, x.to, x.cost)
    }

    constructor(stores: seq<State>, customers: seq<State>, trucks: seq<State>, ds: LegacyDeliverySearch, strategy: Strategy)
      ensures this.stores == stores && this.customers == customers && this.trucks == trucks
      ensures this.ds == ds && this.strategy == strategy
      ensures searches == 0 && readings == {} && Valid()
    {
      this.stores := stores;
      this.customers := customers;
      this.trucks := trucks;
      this.ds := ds;
      this.strategy := strategy;
      searches := 0;
      readings := {};
    }

    /** `parseCost(DeliverySearch.path(ds, s, g, strategy))`: one search,
        which throws unless the strategy is BF. */
    method PathCost(s: State, g: State) returns (r: Result<Cost>)
      requires Valid()
      modifies ds, ds.h1, this`searches, this`readings
      ensures Valid() && searches == old(searches) + 1
      ensures r.Success? <==> strategy == BF
      ensures r.Success? ==> Read(ds.traffic, ds.tunnels, s, g, r.value)
      ensures r.Success? ==> readings == old(readings) + {Reading(s, g, r.value)}
      ensures r.Failure? ==> readings == old(readings)
    {
      var res, pathStr := Path(ds, s, g, strategy);
      searches := searches + 1;
      if res.Failure? {
        return Failure(res.error);
      }
      ReadPath(ds.traffic, ds.tunnels, s, g, res.value);
      r := Success(ParseCost(pathStr));
      readings := readings + {Reading(s, g, r.value)};
    }

    // ----------------------------------------------------------------
    // Rows of costs

    /** Entry `c` of `row` was read in `rs` for position `s` and customer
        `c`, for every customer `c` not in `served`. */
    ghost predicate RowSeen(rs: set<Reading>, s: State, served: set<nat>, row: seq<Cost>) {
      |row| <= |customers| &&
      forall c :: 0 <= c < |row| && c !in served ==> Reading(s, customers[c], row[c]) in rs
    }

    lemma RowSeenStep(rs: set<Reading>, s: State, served: set<nat>, row: seq<Cost>, cost: Cost)
      requires RowSeen(rs, s, served, row) && |row| < |customers|
      requires |row| in served || Reading(s, customers[|row|], cost) in rs
      ensures RowSeen(rs, s, served, row + [cost])
    {
      var next := row + [cost];
      forall c | 0 <= c < |next| && c !in served
        ensures Reading(s, customers[c], next[c]) in rs
      {
        if c < |row| {
          assert next[c] == row[c];
        }
      }
    }

    lemma RowSeenGrow(rs: set<Reading>, rs': set<Reading>, s: State, served: set<nat>, row: seq<Cost>)
      requires RowSeen(rs, s, served, row) && rs <= rs'
      ensures RowSeen(rs', s, served, row)
    {
    }

    // ----------------------------------------------------------------
    // assign and greedyAssignment

    /** `computeCostMatrix`: entry `(t, c)` is the cost read back from the
        search for truck `t` and customer `c`, with exactly one search per
        pair; a search that throws ends the call. */
    method ComputeCostMatrix() returns (r: Result<array2<Cost>>)
      requires Valid()
      modifies ds, ds.h1, this`searches, this`readings
      ensures Valid() && old(readings) <= readings
      ensures r.Success? <==> strategy == BF || |trucks| == 0 || |customers| == 0
      ensures r.Success? ==> fresh(r.value) && r.value.Length0 == |trucks| && r.value.Length1 == |customers|
      ensures r.Success? ==> forall t, c :: 0 <= t < |trucks| && 0 <= c < |customers| ==>
        Reading(trucks[t], customers[c], r.value[t, c]) in readings
      ensures r.Success? ==> searches == old(searches) + |trucks| * |customers|
    {
      var costMatrix := new Cost[|trucks|, |customers|]((_, _) => Inf);
      for t := 0 to |trucks|
        invariant Valid() && old(readings) <= readings
        invariant searches == old(searches) + t * |customers|
        invariant t > 0 && |customers| > 0 ==> strategy == BF
        invariant forall t', c :: 0 <= t' < t && 0 <= c < |customers| ==>
          Reading(trucks[t'], customers[c], costMatrix[t', c]) in readings
        invariant fresh(costMatrix)
      {
        var err, row := RowCosts(t);
        if err.Some? {
          return Failure(err.value);
        }
        WriteRow(costMatrix, t, row);
        assert (t + 1) * |customers| == t * |customers| + |customers|;
      }
      return Success(costMatrix);
    }

    /** The searches of row `t` of `computeCostMatrix`, customer by
        customer; `err` is the exception a search threw. */
    method RowCosts(t: nat) returns (err: Option<string>, row: seq<Cost>)
      requires t < |trucks| && Valid()
      modifies ds, ds.h1, this`searches, this`readings
      ensures Valid() && old(readings) <= readings
      ensures err.None? <==> strategy == BF || |customers| == 0
      ensures err.None? ==> |row| == |customers| && RowSeen(readings, trucks[t], {}, row)
      ensures err.None? ==> searches == old(searches) + |customers|
    {
      row := [];
      for c := 0 to |customers|
        invariant Valid() && old(readings) <= readings
        invariant searches == old(searches) + c
        invariant c > 0 ==> strategy == BF
        invariant |row| == c && RowSeen(readings, trucks[t], {}, row)
      {
        ghost var before := readings;
        var cost := PathCost(trucks[t], customers[c]);
        if cost.Failure? {
          return Some(cost.error), row;
        }
        RowSeenGrow(before, readings, trucks[t], {}, row);
        RowSeenStep(readings, trucks[t], {}, row, cost.value);
        row := row + [cost.value];
      }
      return None, row;
    }

    /** Columns whose entries were all recorded are columns of costs read
        back from `path`. */
    lemma SeenColumnsRead(cols: seq<seq<Cost>>)
      requires Valid() && |cols| == |customers|
      requires forall c :: 0 <= c < |cols| ==>
        |cols[c]| == |trucks| && forall t :: 0 <= t < |trucks| ==> Reading(trucks[t], customers[c], cols[c][t]) in readings
      ensures ColumnsRead(ds.traffic, ds.tunnels, trucks, customers, cols)
    {
      forall c, t | 0 <= c < |cols| && 0 <= t < |trucks|
        ensures Read(ds.traffic, ds.tunnels, trucks[t], customers[c], cols[c][t])
      {
        var x := Reading(trucks[t], customers[c], cols[c][t]);
        assert x in readings;
      }
    }

    /** `greedyAssignment`: `findBestTruck` on every column `cols[c]` of
        the matrix just computed, a pair for each customer that has a best
        truck. The searches throw for any strategy but BF when there is a
        pair to search. */
    method GreedyAssignment() returns (r: Result<seq<Assignment>>, ghost cols: seq<seq<Cost>>)
      requires Valid()
      modifies ds, ds.h1, this`searches, this`readings
      ensures Valid() && old(readings) <= readings
      ensures r.Success? <==> strategy == BF || |trucks| == 0 || |customers| == 0
      ensures r.Success? ==> ColumnsRead(ds.traffic, ds.tunnels, trucks, customers, cols)
      ensures r.Success? ==> r.value == BackendPlanner.GreedyPairs(cols, |customers|)
      ensures r.Success? ==> searches == old(searches) + |trucks| * |customers|
    {
      var costMatrix := ComputeCostMatrix();
      if costMatrix.Failure? {
        return Failure(costMatrix.error), [];
      }
      cols := seq(|customers|, c requires 0 <= c < |customers| reads costMatrix.value => Column(costMatrix.value, c));
      SeenColumnsRead(cols);
      var assignments := PickTrucks(costMatrix.value, cols);
      r := Success(assignments);
    }

    /** The loop of `greedyAssignment` over the customers of `costMatrix`,
        whose columns are `cols`. */
    method PickTrucks(costMatrix: array2<Cost>, ghost cols: seq<seq<Cost>>) returns (assignments: seq<Assignment>)
      requires costMatrix.Length1 == |customers| == |cols|
      requires forall c :: 0 <= c < |customers| ==> Column(costMatrix, c) == cols[c]
      ensures assignments == BackendPlanner.GreedyPairs(cols, |customers|)
    {
      assignments := [];
      for c := 0 to |customers|
        invariant assignments == BackendPlanner.GreedyPairs(cols, c)
      {
        var bestTruck := FindBestTruck(costMatrix, c);
        if bestTruck != -1 {
          assignments := assignments + [Assignment(bestTruck, c)];
        }
      }
    }

    /** `assign`: the greedy assignment, whatever the size of the problem. */
    method Assign() returns (r: Result<seq<Assignment>>, ghost cols: seq<seq<Cost>>)
      requires Valid()
      modifies ds, ds.h1, this`searches, this`readings
      ensures Valid() && old(readings) <= readings
      ensures r.Success? <==> strategy == BF || |trucks| == 0 || |customers| == 0
      ensures r.Success? ==> ColumnsRead(ds.traffic, ds.tunnels, trucks, customers, cols)
      ensures r.Success? ==> r.value == BackendPlanner.GreedyPairs(cols, |customers|)
      ensures r.Success? ==> searches == old(searches) + |trucks| * |customers|
    {
      if |customers| <= 10 && |trucks| <= 3 {
        r, cols := GreedyAssignment();
      } else {
        r, cols := GreedyAssignment();
      }
    }

    // ----------------------------------------------------------------
    // sequentialAssignment

    /** Truck `t` of `costs` is at `positions[t]`, and its row was read in
        `rs` from there for every customer not in `served`. */
    ghost predicate RowsSeen(rs: set<Reading>, positions: map<nat, State>, served: set<nat>, costs: seq<seq<Cost>>) {
      forall t: nat :: t < |costs| ==>
        t in positions && |costs[t]| == |customers| && RowSeen(rs, positions[t], served, costs[t])
    }

    lemma RowsSeenStep(rs: set<Reading>, positions: map<nat, State>, served: set<nat>, costs: seq<seq<Cost>>, row: seq<Cost>)
      requires RowsSeen(rs, positions, served, costs) && |costs| in positions
      requires |row| == |customers| && RowSeen(rs, positions[|costs|], served, row)
      ensures RowsSeen(rs, positions, served, costs + [row])
    {
      var next := costs + [row];
      forall t: nat | t < |next|
        ensures t in positions && |next[t]| == |customers| && RowSeen(rs, positions[t], served, next[t])
      {
        if t < |costs| {
          assert next[t] == costs[t];
        }
      }
    }

    lemma RowsSeenGrow(rs: set<Reading>, rs': set<Reading>, positions: map<nat, State>, served: set<nat>, costs: seq<seq<Cost>>)
      requires RowsSeen(rs, positions, served, costs) && rs <= rs'
      ensures RowsSeen(rs', positions, served, costs)
    {
      forall t: nat | t < |costs|
        ensures RowSeen(rs', positions[t], served, costs[t])
      {
        RowSeenGrow(rs, rs', positions[t], served, costs[t]);
      }
    }

    /** Round `k` of `obs` started from the state of the rounds before it
        and was read in `rs`, one cost per truck and unserved customer. */
    ghost predicate RoundSeen(rs: set<Reading>, obs: seq<seq<seq<Cost>>>, k: nat)
      requires k < |obs|
    {
      Sequential(obs, trucks, stores, k).Success? && |obs[k]| == |trucks| &&
      RowsSeen(rs, Sequential(obs, trucks, stores, k).value.positions, Sequential(obs, trucks, stores, k).value.served, obs[k])
    }

    lemma RoundsSeenGrow(rs: set<Reading>, rs': set<Reading>, obs: seq<seq<seq<Cost>>>)
      requires (forall k: nat :: k < |obs| ==> RoundSeen(rs, obs, k)) && rs <= rs'
      ensures forall k: nat :: k < |obs| ==> RoundSeen(rs', obs, k)
    {
      forall k: nat | k < |obs|
        ensures RoundSeen(rs', obs, k)
      {
        assert RoundSeen(rs, obs, k);
        var st := Sequential(obs, trucks, stores, k).value;
        RowsSeenGrow(rs, rs', st.positions, st.served, obs[k]);
      }
    }

    /** A round seen stays seen when later rounds are added. */
    lemma RoundSeenPrefix(rs: set<Reading>, obs: seq<seq<seq<Cost>>>, more: seq<seq<seq<Cost>>>, k: nat)
      requires k < |obs| && RoundSeen(rs, obs, k)
      ensures RoundSeen(rs, obs + more, k)
    {
      SequentialPrefix(obs, more, trucks, stores, k);
      assert (obs + more)[k] == obs[k];
    }

    /** Extending the rounds by one read from the state after them keeps
        every round seen. */
    lemma RoundsSeenStep(rs: set<Reading>, obs: seq<seq<seq<Cost>>>, costs: seq<seq<Cost>>)
      requires (forall k: nat :: k < |obs| ==> RoundSeen(rs, obs, k)) && Sequential(obs, trucks, stores, |obs|).Success?
      requires |costs| == |trucks|
      requires RowsSeen(rs, Sequential(obs, trucks, stores, |obs|).value.positions,
                        Sequential(obs, trucks, stores, |obs|).value.served, costs)
      ensures (forall k: nat :: k < |obs + [costs]| ==> RoundSeen(rs, obs + [costs], k))
    {
      RoundsSeenKeep(rs, obs, costs);
      RoundSeenNew(rs, obs, costs);
    }

    lemma RoundsSeenKeep(rs: set<Reading>, obs: seq<seq<seq<Cost>>>, costs: seq<seq<Cost>>)
      requires (forall k: nat :: k < |obs| ==> RoundSeen(rs, obs, k))
      ensures forall k: nat :: k < |obs| ==> RoundSeen(rs, obs + [costs], k)
    {
      forall k: nat | k < |obs|
        ensures RoundSeen(rs, obs + [costs], k)
      {
        RoundSeenPrefix(rs, obs, [costs], k);
      }
    }

    lemma RoundSeenNew(rs: set<Reading>, obs: seq<seq<seq<Cost>>>, costs: seq<seq<Cost>>)
      requires Sequential(obs, trucks, stores, |obs|).Success? && |costs| == |trucks|
      requires RowsSeen(rs, Sequential(obs, trucks, stores, |obs|).value.positions,
                        Sequential(obs, trucks, stores, |obs|).value.served, costs)
      ensures RoundSeen(rs, obs + [costs], |obs|)
    {
      SequentialPrefix(obs, [costs], trucks, stores, |obs|);
      assert (obs + [costs])[|obs|] == costs;
    }

    lemma RowsSeenLengths(rs: set<Reading>, positions: map<nat, State>, served: set<nat>, costs: seq<seq<Cost>>)
      requires RowsSeen(rs, positions, served, costs)
      ensures forall t :: 0 <= t < |costs| ==> |costs[t]| == |customers|
    {
      forall t | 0 <= t < |costs|
        ensures |costs[t]| == |customers|
      {
        var t': nat := t;
        assert t' < |costs|;
      }
    }

    /** A round whose costs were read back adds no pair exactly when no
        truck, from where it now is, can reach any unserved customer
        (without zero traffic levels). */
    lemma StuckIffUnreachable(obs: seq<seq<seq<Cost>>>, n: nat)
      requires 0 < n <= |obs| && Valid() && RoundSeen(readings, obs, n - 1) && NoZero(ds.traffic)
      requires Sequential(obs, trucks, stores, n).Success?
      ensures var prev := Sequential(obs, trucks, stores, n - 1).value;
        Sequential(obs, trucks, stores, n).value == prev <==>
          forall t: nat, c: nat :: t < |trucks| && c < |customers| && c !in prev.served ==>
            !GoalReachable(ProblemOf(ds.traffic, ds.tunnels, prev.positions[t], customers[c]))
    {
      var prev := Sequential(obs, trucks, stores, n - 1).value;
      var costs: seq<seq<Cost>> := obs[n - 1];
      SequentialChoice(obs, trucks, stores, n);
      forall t: nat, c: nat | t < |trucks| && c < |customers| && c !in prev.served
        ensures costs[t][c].Inf? <==> !GoalReachable(ProblemOf(ds.traffic, ds.tunnels, prev.positions[t], customers[c]))
      {
        var x := Reading(prev.positions[t], customers[c], costs[t][c]);
        assert RowSeen(readings, prev.positions[t], prev.served, costs[t]);
        assert x in readings;
        ReadFacts(ds.traffic, ds.tunnels, x.from, x.to, x.cost);
      }
    }

    /** The ghost side of one round of `sequentialAssignment`: after rounds
        `obs` ending in `st`, a round that read `costs` and picked `p`
        leads to `Advance(st, p, stores)`, with every round still seen. */
    lemma RoundStep(rs: set<Reading>, obs: seq<seq<seq<Cost>>>, st: Round, costs: seq<seq<Cost>>, p: Pick)
      requires Sequential(obs, trucks, stores, |obs|) == Success(st)
      requires (forall k: nat :: k < |obs| ==> RoundSeen(rs, obs, k)) && Shaped(obs, |trucks|, |customers|)
      requires |costs| == |trucks| && RowsSeen(rs, st.positions, st.served, costs)
      requires p == GridPick(costs, st.served, |costs|)
      ensures Sequential(obs + [costs], trucks, stores, |obs|) == Success(st)
      ensures Sequential(obs + [costs], trucks, stores, |obs| + 1) == Advance(st, p, stores)
      ensures forall k: nat :: k < |obs + [costs]| ==> RoundSeen(rs, obs + [costs], k)
      ensures Shaped(obs + [costs], |trucks|, |customers|)
      ensures p.truck != -1 || p.customer != -1 ==>
        0 <= p.truck < |trucks| && 0 <= p.customer < |customers| && p.customer !in st.served
    {
      GridPickValid(costs, st.served, |costs|);
      RoundsSeenStep(rs, obs, costs);
      RowsSeenLengths(rs, st.positions, st.served, costs);
      ShapedStep(obs, costs, |trucks|, |customers|);
      SequentialPrefix(obs, [costs], trucks, stores, |obs|);
      assert (obs + [costs])[|obs|] == costs;
    }

    /** The searches of one round after the rounds `obs`, which ended with
        the loop's variables; `costs` is what the round read back. */
    method PlayRound(ghost obs: seq<seq<seq<Cost>>>, ghost assignments: seq<Assignment>, served: set<nat>,
                     positions: map<nat, State>) returns (r: Result<Pick>, ghost costs: seq<seq<Cost>>)
      requires Valid() && Sequential(obs, trucks, stores, |obs|) == Success(Round(assignments, served, positions))
      requires (forall k: nat :: k < |obs| ==> RoundSeen(readings, obs, k)) && Shaped(obs, |trucks|, |customers|)
      requires forall t: nat :: t < |trucks| ==> t in positions
      modifies ds, ds.h1, this`searches, this`readings
      ensures Valid() && old(readings) <= readings
      ensures r.Success? <==> strategy == BF || |trucks| == 0 || AllServed(served, |customers|)
      ensures r.Success? ==> |costs| == |trucks| && r.value == GridPick(costs, served, |costs|)
      ensures r.Success? ==>
        && Sequential(obs + [costs], trucks, stores, |obs|) == Success(Round(assignments, served, positions))
        && Sequential(obs + [costs], trucks, stores, |obs| + 1) == Advance(Round(assignments, served, positions), r.value, stores)
        && (forall k: nat :: k < |obs + [costs]| ==> RoundSeen(readings, obs + [costs], k))
        && Shaped(obs + [costs], |trucks|, |customers|)
      ensures r.Success? && (r.value.truck != -1 || r.value.customer != -1) ==>
        0 <= r.value.truck < |trucks| && 0 <= r.value.customer < |customers| && r.value.customer !in served
    {
      ghost var before := readings;
      r, costs := BestPair(served, positions);
      if r.Success? {
        RoundsSeenGrow(before, readings, obs);
        RoundStep(readings, obs, Round(assignments, served, positions), costs, r.value);
      }
    }

    /** `sequentialAssignment`: rounds of searches from every truck's current
        position to every unserved customer, each taking the cheapest pair
        (ties to the first in truck-major order) and sending the truck back
        to its store, until every customer is served or a round finds no
        finite cost. `obs` are the costs each round read back. A search
        throws for any strategy but BF, and `stores.get` throws for a truck
        without a store. */
    method SequentialAssignment() returns (r: Result<seq<Assignment>>, ghost obs: seq<seq<seq<Cost>>>)
      requires Valid()
      modifies ds, ds.h1, this`searches, this`readings
      ensures Valid() && old(readings) <= readings
      ensures r.Success? ==> (forall k: nat :: k < |obs| ==> RoundSeen(readings, obs, k)) && Shaped(obs, |trucks|, |customers|)
      ensures r.Success? ==> Sequential(obs, trucks, stores, |obs|).Success?
      ensures r.Success? ==> r.value == Sequential(obs, trucks, stores, |obs|).value.assignments
      ensures r.Success? ==> var st := Sequential(obs, trucks, stores, |obs|).value;
        (|r.value| == |obs| && |st.served| == |customers|)
        || (|r.value| == |obs| - 1 && st == Sequential(obs, trucks, stores, |obs| - 1).value)
      ensures strategy == BF && |trucks| <= |stores| ==> r.Success?
      ensures strategy != BF && |trucks| > 0 && |customers| > 0 ==> r.Failure?
    {
      var assignments: seq<Assignment> := [];
      var served: set<nat> := {};
      var positions: map<nat, State> := map t: nat | t < |trucks| :: trucks[t];
      obs := [];
      while |served| < |customers|
        invariant Valid() && old(readings) <= readings
        invariant Sequential(obs, trucks, stores, |obs|) == Success(Round(assignments, served, positions))
        invariant (forall k: nat :: k < |obs| ==> RoundSeen(readings, obs, k)) && Shaped(obs, |trucks|, |customers|)
        invariant |assignments| == |obs| && |served| == |assignments| <= |customers|
        invariant forall t: nat :: t < |trucks| ==> t in positions
        invariant strategy != BF && |trucks| > 0 ==> served == {}
        decreases |customers| - |served|
      {
        var pick;
        ghost var costs;
        pick, costs := PlayRound(obs, assignments, served, positions);
        if pick.Failure? {
          return Failure(pick.error), obs;
        }
        var p := pick.value;
        obs := obs + [costs];
        if p.truck == -1 || p.customer == -1 {
          return Success(assignments), obs;
        }
        if p.truck >= |stores| {
          return Failure(OutOfBounds), obs;
        }
        assignments := assignments + [Assignment(p.truck, p.customer)];
        served := served + {p.customer};
        positions := positions[p.truck := stores[p.truck]];
      }
      r := Success(assignments);
    }

    /** One round of `sequentialAssignment`: the pick over every truck's
        row, `costs[t]` being the costs read back from `positions[t]`. */
    method BestPair(served: set<nat>, positions: map<nat, State>) returns (r: Result<Pick>, ghost costs: seq<seq<Cost>>)
      requires Valid() && forall t: nat :: t < |trucks| ==> t in positions
      modifies ds, ds.h1, this`searches, this`readings
      ensures Valid() && old(readings) <= readings
      ensures r.Success? <==> strategy == BF || |trucks| == 0 || AllServed(served, |customers|)
      ensures r.Success? ==> |costs| == |trucks| && RowsSeen(readings, positions, served, costs)
      ensures r.Success? ==> r.value == GridPick(costs, served, |costs|)
    {
      var p := NoPick;
      costs := [];
      for t := 0 to |trucks|
        invariant Valid() && old(readings) <= readings
        invariant |costs| == t && RowsSeen(readings, positions, served, costs)
        invariant p == GridPick(costs, served, t)
        invariant t > 0 && strategy != BF ==> AllServed(served, |customers|)
      {
        ghost var before := readings;
        var rowPick;
        ghost var row;
        rowPick, row := RowPair(t, positions[t], served, p);
        if rowPick.Failure? {
          return Failure(rowPick.error), costs;
        }
        GridPickSnoc(costs, row, served);
        RowsSeenGrow(before, readings, positions, served, costs);
        RowsSeenStep(readings, positions, served, costs, row);
        p := rowPick.value;
        costs := costs + [row];
      }
      r := Success(p);
    }

    /** The inner loop of a round for truck `t` at `pos`, from the running
        pick `p`: a search per unserved customer, served ones skipped; `row`
        holds the costs read back, +infinity for the skipped ones. */
    method RowPair(t: nat, pos: State, served: set<nat>, p: Pick) returns (r: Result<Pick>, ghost row: seq<Cost>)
      requires Valid()
      modifies ds, ds.h1, this`searches, this`readings
      ensures Valid() && old(readings) <= readings
      ensures r.Success? <==> strategy == BF || AllServed(served, |customers|)
      ensures r.Success? ==> |row| == |customers| && RowSeen(readings, pos, served, row)
      ensures r.Success? ==> r.value == RowPick(row, served, t, p, |row|)
    {
      var q := p;
      row := [];
      for c := 0 to |customers|
        invariant Valid() && old(readings) <= readings
        invariant |row| == c && RowSeen(readings, pos, served, row)
        invariant q == RowPick(row, served, t, p, c)
        invariant strategy != BF ==> AllServed(served, c)
      {
        var next;
        ghost var cost;
        next, cost := Visit(t, pos, served, p, q, c, row);
        if next.Failure? {
          AllServedMissing(served, |customers|, c);
          return Failure(next.error), row;
        }
        q := next.value;
        row := row + [cost];
      }
      r := Success(q);
    }

    /** Customer `c` of the inner loop, after the costs `row` of the ones
        before it: skipped when served, otherwise searched from `pos` and
        taken when strictly cheaper than `q`. */
    method Visit(t: nat, pos: State, served: set<nat>, p: Pick, q: Pick, c: nat, ghost row: seq<Cost>)
      returns (r: Result<Pick>, ghost cost: Cost)
      requires Valid() && c == |row| < |customers| && RowSeen(readings, pos, served, row)
      requires q == RowPick(row, served, t, p, |row|)
      modifies ds, ds.h1, this`searches, this`readings
      ensures Valid() && old(readings) <= readings
      ensures r.Success? <==> strategy == BF || |row| in served
      ensures r.Success? ==> RowSeen(readings, pos, served, row + [cost])
      ensures r.Success? ==> r.value == RowPick(row + [cost], served, t, p, |row| + 1)
    {
      if c in served {
        RowPickSnoc(row, Inf, served, t, p);
        RowSeenStep(readings, pos, served, row, Inf);
        return Success(q), Inf;
      }
      ghost var before := readings;
      var found := PathCost(pos, customers[c]);
      if found.Failure? {
        return Failure(found.error), Inf;
      }
      cost := found.value;
      RowSeenGrow(before, readings, pos, served, row);
      RowSeenStep(readings, pos, served, row, cost);
      RowPickSnoc(row, cost, served, t, p);
      if Lt(found.value, q.cost) {
        r := Success(Pick(found.value, t, c));
      } else {
        r := Success(q);
      }
    }

    // ----------------------------------------------------------------
    // getStats

    /** Cost `k` was read in `rs` for pair `k`. */
    ghost predicate PairsSeen(rs: set<Reading>, assignments: seq<Assignment>, costs: seq<Cost>) {
      && PairsInRange(assignments, |trucks|, |customers|) && |costs| <= |assignments|
      && forall k :: 0 <= k < |costs| ==>
           Reading(trucks[assignments[k].truck], customers[assignments[k].customer], costs[k]) in rs
    }

    lemma PairsSeenStep(rs: set<Reading>, assignments: seq<Assignment>, costs: seq<Cost>, cost: Cost)
      requires PairsSeen(rs, assignments, costs) && |costs| < |assignments|
      requires Reading(trucks[assignments[|costs|].truck], customers[assignments[|costs|].customer], cost) in rs
      ensures PairsSeen(rs, assignments, costs + [cost])
    {
      var next := costs + [cost];
      forall k | 0 <= k < |next|
        ensures Reading(trucks[assignments[k].truck], customers[assignments[k].customer], next[k]) in rs
      {
        if k < |costs| {
          assert next[k] == costs[k];
        }
      }
    }

    /** The costs of recorded pairs are costs read back from `path`. */
    lemma SeenPairsRead(assignments: seq<Assignment>, costs: seq<Cost>)
      requires Valid() && PairsSeen(readings, assignments, costs)
      ensures forall k :: 0 <= k < |costs| ==>
        Read(ds.traffic, ds.tunnels, trucks[assignments[k].truck], customers[assignments[k].customer], costs[k])
    {
      forall k | 0 <= k < |costs|
        ensures Read(ds.traffic, ds.tunnels, trucks[assignments[k].truck], customers[assignments[k].customer], costs[k])
      {
        var x := Reading(trucks[assignments[k].truck], customers[assignments[k].customer], costs[k]);
        assert x in readings;
      }
    }

    /** `getStats`: the statistics of the pairs, with one new search per
        pair for its cost; the empty list gives zeros without a search, and
        otherwise the searches throw for any strategy but BF. */
    method GetStats(assignments: seq<Assignment>) returns (r: Result<AssignmentStats>, ghost costs: seq<Cost>)
      requires Valid() && PairsInRange(assignments, |trucks|, |customers|)
      modifies ds, ds.h1, this`searches, this`readings
      ensures Valid() && old(readings) <= readings
      ensures r.Success? <==> assignments == [] || strategy == BF
      ensures r.Success? ==> |costs| == |assignments| && forall k :: 0 <= k < |costs| ==>
        Read(ds.traffic, ds.tunnels, trucks[assignments[k].truck], customers[assignments[k].customer], costs[k])
      ensures r.Success? ==> r.value == StatsOf(assignments, |trucks|, costs)
      ensures r.Success? ==> searches == old(searches) + |assignments|
    {
      if |assignments| == 0 {
        StatsOfEmpty(|trucks|);
        return Success(AssignmentStats(0, Fin(0), 0, 0)), [];
      }
      var deliveriesPerTruck := new nat[|trucks|](_ => 0);
      assert deliveriesPerTruck[..] == Deliveries(assignments, 0, |trucks|);
      var totalCost;
      totalCost, costs := Tally(assignments, deliveriesPerTruck);
      if totalCost.Failure? {
        return Failure(totalCost.error), costs;
      }
      SeenPairsRead(assignments, costs);
      var maxDeliveries, minDeliveries := CountExtremes(deliveriesPerTruck);
      r := Success(AssignmentStats(|assignments|, totalCost.value, maxDeliveries, minDeliveries));
    }

    /** The loop of `getStats`: one delivery per pair for its truck, and the
        cost read back for every pair added to the total. */
    method Tally(assignments: seq<Assignment>, deliveriesPerTruck: array<nat>) returns (totalCost: Result<Cost>, ghost costs: seq<Cost>)
      requires Valid() && PairsInRange(assignments, |trucks|, |customers|)
      requires deliveriesPerTruck.Length == |trucks|
      requires deliveriesPerTruck[..] == Deliveries(assignments, 0, |trucks|)
      modifies deliveriesPerTruck, ds, ds.h1, this`searches, this`readings
      ensures Valid() && old(readings) <= readings
      ensures totalCost.Success? <==> assignments == [] || strategy == BF
      ensures totalCost.Success? ==> deliveriesPerTruck[..] == Deliveries(assignments, |assignments|, |trucks|)
      ensures totalCost.Success? ==> |costs| == |assignments| && PairsSeen(readings, assignments, costs)
      ensures totalCost.Success? ==> totalCost.value == SumCosts(costs)
      ensures totalCost.Success? ==> searches == old(searches) + |assignments|
    {
      costs := [];
      var total := Fin(0);
      for k := 0 to |assignments|
        invariant Valid() && old(readings) <= readings
        invariant |costs| == k && PairsSeen(readings, assignments, costs)
        invariant deliveriesPerTruck[..] == Deliveries(assignments, k, |trucks|)
        invariant total == SumCosts(costs)
        invariant searches == old(searches) + k
        invariant k > 0 ==> strategy == BF
      {
        var truckIdx := assignments[k].truck;
        var customerIdx := assignments[k].customer;
        BackendPlanner.Count(deliveriesPerTruck, assignments, k);
        var cost := PathCost(trucks[truckIdx], customers[customerIdx]);
        if cost.Failure? {
          return Failure(cost.error), costs;
        }
        PairsSeenStep(readings, assignments, costs, cost.value);
        assert (costs + [cost.value])[..k] == costs;
        total := Add(total, cost.value);
        costs := costs + [cost.value];
      }
      totalCost := Success(total);
    }
  }

  /** `costMatrix[t][c] = row[c]` for every customer `c`; the other rows stay. */
  method WriteRow(costMatrix: array2<Cost>, t: nat, row: seq<Cost>)
    requires t < costMatrix.Length0 && |row| == costMatrix.Length1
    modifies costMatrix
    ensures forall c :: 0 <= c < |row| ==> costMatrix[t, c] == row[c]
    ensures forall t', c :: 0 <= t' < costMatrix.Length0 && t' != t && 0 <= c < costMatrix.Length1 ==>
      costMatrix[t', c] == old(costMatrix[t', c])
  {
    for c := 0 to |row|
      invariant forall c' :: 0 <= c' < c ==> costMatrix[t, c'] == row[c']
      invariant forall t', c' :: 0 <= t' < costMatrix.Length0 && t' != t && 0 <= c' < costMatrix.Length1 ==>
        costMatrix[t', c'] == old(costMatrix[t', c'])
    {
      costMatrix[t, c] := row[c];
    }
  }
}
