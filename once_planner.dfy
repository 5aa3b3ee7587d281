/** The planner of backend/src/code/DeliveryPlanner.java: customers in
    index order, each given the cheapest truck that has not been given a
    customer yet, so that every truck delivers at most once. It asks the
    delivery search of backend/src/main/java/code/DeliverySearch.java for
    each path. */
module OncePlanner {
  import opened Costs
  import opened Grid
  import opened SearchModel
  import opened Strategies
  import opened Actions
  import opened JavaText
  import opened Tunnels
  import opened DeliveryInput
  import opened Delivery
  import opened PlannerCommon
  import opened DeliveryPlan

  // ------------------------------------------------------------------
  // The assignment as a function of what the searches returned

  /** What stands in the observed row for a truck that was skipped as used. */
  const Skipped: SearchResult<Action> := SearchResult([], Inf, 0)

  /** The two things the outer loop updates: the pairs and the used trucks. */
  datatype Progress = Progress(assignments: seq<Assignment>, usedTrucks: set<nat>)

  /** `(minCost, bestTruck)` once the inner loop has looked at the first
      `n` trucks: a used truck is skipped without a search, a
      `"no path;0;0"` text is skipped, and otherwise the cost read back from
      the text is taken when it is strictly below the running minimum. */
  function UnusedMin(rs: seq<SearchResult<Action>>, used: set<nat>, n: nat): (m: (Cost, int))
    requires n <= |rs|
    ensures -1 <= m.1 < n
    decreases n
  {
    if n == 0 then (Inf, -1)
    else
      var prev := UnusedMin(rs, used, n - 1);
      if n - 1 !in used && Lt(TextCost(rs[n - 1]), prev.0) then (TextCost(rs[n - 1]), n - 1) else prev
  }

  /** The state of `assign` after the first `n` customers, where `obs[c][t]`
      is what the search for truck `t` and customer `c` returned (a
      placeholder where `t` was skipped). */
  function OnceGreedy(obs: seq<seq<SearchResult<Action>>>, n: nat): Progress
    requires n <= |obs|
    decreases n
  {
    if n == 0 then Progress([], {})
    else
      var p := OnceGreedy(obs, n - 1);
      var b := UnusedMin(obs[n - 1], p.usedTrucks, |obs[n - 1]|).1;
      if b == -1 then p else Progress(p.assignments + [Assignment(b, n - 1)], p.usedTrucks + {b})
  }

  // ------------------------------------------------------------------
  // What the assignment promises

  /** The running minimum is +infinity, with no truck chosen, exactly when
      every unused truck so far got `"no path"`; otherwise it is the cost of
      the chosen truck, which is unused, no unused truck costs less, and
      every unused truck before it costs strictly more. */
  lemma {:induction false} UnusedMinFacts(rs: seq<SearchResult<Action>>, used: set<nat>, n: nat)
    requires n <= |rs|
    ensures var (m, b) := UnusedMin(rs, used, n);
      && (b == -1 <==> m.Inf?)
      && (m.Inf? <==> forall t :: 0 <= t < n && t !in used ==> rs[t].cost.Inf?)
      && (m.Fin? ==> 0 <= b < n && b !in used && m == TextCost(rs[b]))
      && (forall t :: 0 <= t < n && t !in used ==> Le(m, TextCost(rs[t])))
      && (m.Fin? ==> forall t :: 0 <= t < b && t !in used ==> Lt(m, TextCost(rs[t])))
    decreases n
  {
    if n > 0 {
      UnusedMinFacts(rs, used, n - 1);
    }
  }

  /** The running minimum over a row only looks at its first `n` entries. */
  lemma {:induction false} UnusedMinPrefix(rs: seq<SearchResult<Action>>, more: seq<SearchResult<Action>>, used: set<nat>, n: nat)
    requires n <= |rs|
    ensures UnusedMin(rs + more, used, n) == UnusedMin(rs, used, n)
    decreases n
  {
    if n > 0 {
      UnusedMinPrefix(rs, more, used, n - 1);
      assert (rs + more)[n - 1] == rs[n - 1];
    }
  }

  /** The customers come in strictly increasing order, each below `n`, and
      each truck is a valid index of its customer's row; so there is at most
      one pair per customer and at most `n` pairs. */
  lemma {:induction false} CustomersIncreasing(obs: seq<seq<SearchResult<Action>>>, n: nat)
    requires n <= |obs|
    ensures var pairs := OnceGreedy(obs, n).assignments;
      && |pairs| <= n
      && (forall k :: 0 <= k < |pairs| ==> pairs[k].customer < n && pairs[k].truck < |obs[pairs[k].customer]|)
      && (forall i, j :: 0 <= i < j < |pairs| ==> pairs[i].customer < pairs[j].customer)
    decreases n
  {
    if n > 0 {
      CustomersIncreasing(obs, n - 1);
    }
  }

  /** One customer more: the state is unchanged or gains one pair, for
      that customer, with a truck that was unused and is now used. */
  lemma OnceStep(obs: seq<seq<SearchResult<Action>>>, n: nat)
    requires 0 < n <= |obs|
    ensures var p := OnceGreedy(obs, n - 1);
      var q := OnceGreedy(obs, n);
      || q == p
      || (&& |q.assignments| == |p.assignments| + 1
          && q.assignments[..|p.assignments|] == p.assignments
          && q.assignments[|p.assignments|].customer == n - 1
          && q.assignments[|p.assignments|].truck !in p.usedTrucks
          && q.usedTrucks == p.usedTrucks + {q.assignments[|p.assignments|].truck})
  {
    var p := OnceGreedy(obs, n - 1);
    UnusedMinFacts(obs[n - 1], p.usedTrucks, |obs[n - 1]|);
    var b := UnusedMin(obs[n - 1], p.usedTrucks, |obs[n - 1]|).1;
    if b != -1 {
      var q := OnceGreedy(obs, n);
      assert q == Progress(p.assignments + [Assignment(b, n - 1)], p.usedTrucks + {b});
      assert q.assignments[..|p.assignments|] == p.assignments;
    }
  }

  /** Every pair's truck is in `usedTrucks`. */
  lemma {:induction false} UsedHolds(obs: seq<seq<SearchResult<Action>>>, n: nat)
    requires n <= |obs|
    ensures var p := OnceGreedy(obs, n);
      forall k :: 0 <= k < |p.assignments| ==> p.assignments[k].truck in p.usedTrucks
    decreases n
  {
    if n > 0 {
      var p := OnceGreedy(obs, n - 1);
      UsedHolds(obs, n - 1);
      OnceStep(obs, n);
    }
  }

  /** Every truck in `usedTrucks` is the truck of some pair. */
  lemma {:induction false} UsedOnlyPairs(obs: seq<seq<SearchResult<Action>>>, n: nat)
    requires n <= |obs|
    ensures var p := OnceGreedy(obs, n);
      forall t :: t in p.usedTrucks ==> exists k :: 0 <= k < |p.assignments| && p.assignments[k].truck == t
    decreases n
  {
    if n > 0 {
      var p := OnceGreedy(obs, n - 1);
      var q := OnceGreedy(obs, n);
      UsedOnlyPairs(obs, n - 1);
      OnceStep(obs, n);
      if q != p {
        forall t | t in q.usedTrucks
          ensures exists k :: 0 <= k < |q.assignments| && q.assignments[k].truck == t
        {
          if t in p.usedTrucks {
            var k :| 0 <= k < |p.assignments| && p.assignments[k].truck == t;
            assert q.assignments[k] == p.assignments[k];
          } else {
            assert q.assignments[|p.assignments|].truck == t;
          }
        }
      }
    }
  }

  /** No truck is in two pairs, so there are as many used trucks as pairs. */
  lemma {:induction false} TrucksOnce(obs: seq<seq<SearchResult<Action>>>, n: nat)
    requires n <= |obs|
    ensures var p := OnceGreedy(obs, n);
      && (forall i, j :: 0 <= i < j < |p.assignments| ==> p.assignments[i].truck != p.assignments[j].truck)
      && |p.usedTrucks| == |p.assignments|
    decreases n
  {
    if n > 0 {
      var p := OnceGreedy(obs, n - 1);
      TrucksOnce(obs, n - 1);
      UsedHolds(obs, n - 1);
      UnusedMinFacts(obs[n - 1], p.usedTrucks, |obs[n - 1]|);
    }
  }

  /** The used trucks are indices below `T` when every row has `T` entries. */
  lemma {:induction false} UsedBelow(obs: seq<seq<SearchResult<Action>>>, n: nat, T: nat)
    requires n <= |obs|
    requires forall c :: 0 <= c < n ==> |obs[c]| == T
    ensures forall t :: t in OnceGreedy(obs, n).usedTrucks ==> t < T
    decreases n
  {
    if n > 0 {
      UsedBelow(obs, n - 1, T);
    }
  }

  /** The indices below `T`. */
  function Below(T: nat): set<nat>
    decreases T
  {
    if T == 0 then {} else Below(T - 1) + {T - 1}
  }

  lemma {:induction false} BelowFacts(T: nat)
    ensures forall t: nat :: t in Below(T) <==> t < T
    ensures |Below(T)| == T
    decreases T
  {
    if T > 0 {
      BelowFacts(T - 1);
      assert Below(T) == Below(T - 1) + {T - 1};
      assert T - 1 !in Below(T - 1);
      assert |Below(T - 1) + {T - 1}| == |Below(T - 1)| + 1;
    }
  }

  lemma {:induction false} SubsetSize(a: set<nat>, b: set<nat>)
    requires a <= b
    ensures |a| <= |b|
    decreases |a|
  {
    if a != {} {
      var x :| x in a;
      SubsetSize(a - {x}, b - {x});
    }
  }

  /** There are at most `min(|trucks|, |customers|)` pairs. */
  lemma CountBound(obs: seq<seq<SearchResult<Action>>>, n: nat, T: nat)
    requires n <= |obs|
    requires forall c :: 0 <= c < n ==> |obs[c]| == T
    ensures |OnceGreedy(obs, n).assignments| <= n && |OnceGreedy(obs, n).assignments| <= T
  {
    CustomersIncreasing(obs, n);
    TrucksOnce(obs, n);
    UsedBelow(obs, n, T);
    BelowFacts(T);
    SubsetSize(OnceGreedy(obs, n).usedTrucks, Below(T));
  }

  /** What happens to customer `c`: when some truck not used so far got a
      path, the customer is given an unused truck of finite, minimal cost
      among the unused trucks, the lowest such index winning ties, and that
      truck is marked used; when no unused truck got a path, nothing
      changes. */
  lemma Decision(obs: seq<seq<SearchResult<Action>>>, c: nat)
    requires c < |obs|
    ensures var p := OnceGreedy(obs, c);
      var rs := obs[c];
      if exists t :: 0 <= t < |rs| && t !in p.usedTrucks && rs[t].cost.Fin? then
        exists b :: 0 <= b < |rs|
          && OnceGreedy(obs, c + 1) == Progress(p.assignments + [Assignment(b, c)], p.usedTrucks + {b})
          && b !in p.usedTrucks && rs[b].cost.Fin?
          && (forall t :: 0 <= t < |rs| && t !in p.usedTrucks ==> Le(TextCost(rs[b]), TextCost(rs[t])))
          && (forall t :: 0 <= t < b && t !in p.usedTrucks ==> Lt(TextCost(rs[b]), TextCost(rs[t])))
      else
        OnceGreedy(obs, c + 1) == p
  {
    var p := OnceGreedy(obs, c);
    var rs := obs[c];
    UnusedMinFacts(rs, p.usedTrucks, |rs|);
    var b := UnusedMin(rs, p.usedTrucks, |rs|).1;
    if b != -1 {
      assert OnceGreedy(obs, c + 1) == Progress(p.assignments + [Assignment(b, c)], p.usedTrucks + {b});
    }
  }

  /** Extending the observations keeps the state built so far. */
  lemma {:induction false} OncePrefix(obs: seq<seq<SearchResult<Action>>>, more: seq<seq<SearchResult<Action>>>, n: nat)
    requires n <= |obs|
    ensures OnceGreedy(obs + more, n) == OnceGreedy(obs, n)
    decreases n
  {
    if n > 0 {
      OncePrefix(obs, more, n - 1);
      assert (obs + more)[n - 1] == obs[n - 1];
    }
  }

  /** The state after one more observed row is one step of the outer
      loop from the state before it. */
  lemma NextProgress(obs: seq<seq<SearchResult<Action>>>, rs: seq<SearchResult<Action>>)
    ensures var p := OnceGreedy(obs, |obs|);
      var b := UnusedMin(rs, p.usedTrucks, |rs|).1;
      OnceGreedy(obs + [rs], |obs| + 1)
        == if b == -1 then p else Progress(p.assignments + [Assignment(b, |obs|)], p.usedTrucks + {b})
  {
    OncePrefix(obs, [rs], |obs|);
    assert (obs + [rs])[|obs|] == rs;
  }

  /** The pairs for fewer customers are a prefix of those for more, and the
      pairs beyond them are for later customers. */
  lemma {:induction false} OnceGrows(obs: seq<seq<SearchResult<Action>>>, c: nat, n: nat)
    requires c <= n <= |obs|
    ensures OnceGreedy(obs, c).assignments <= OnceGreedy(obs, n).assignments
    ensures forall k :: |OnceGreedy(obs, c).assignments| <= k < |OnceGreedy(obs, n).assignments| ==>
      OnceGreedy(obs, n).assignments[k].customer >= c
    decreases n - c
  {
    if c < n {
      OnceGrows(obs, c, n - 1);
    }
  }

  /** Customer `c` is in some pair exactly when a truck not used before it
      got a path to it: a customer no unused truck reaches is left out
      silently. */
  lemma Served(obs: seq<seq<SearchResult<Action>>>, n: nat, c: nat)
    requires c < n <= |obs|
    ensures var pairs := OnceGreedy(obs, n).assignments;
      (exists k :: 0 <= k < |pairs| && pairs[k].customer == c)
        <==> exists t :: 0 <= t < |obs[c]| && t !in OnceGreedy(obs, c).usedTrucks && obs[c][t].cost.Fin?
  {
    if exists t :: 0 <= t < |obs[c]| && t !in OnceGreedy(obs, c).usedTrucks && obs[c][t].cost.Fin? {
      ServedWhenReached(obs, n, c);
    } else {
      UnservedWhenUnreached(obs, n, c);
    }
  }

  /** A customer some unused truck reaches is in the pair right after those
      of the customers before it. */
  lemma ServedWhenReached(obs: seq<seq<SearchResult<Action>>>, n: nat, c: nat)
    requires c < n <= |obs|
    requires exists t :: 0 <= t < |obs[c]| && t !in OnceGreedy(obs, c).usedTrucks && obs[c][t].cost.Fin?
    ensures var k := |OnceGreedy(obs, c).assignments|;
      k < |OnceGreedy(obs, n).assignments| && OnceGreedy(obs, n).assignments[k].customer == c
  {
    var b := ChosenTruck(obs, c);
    PairKept(obs, n, c, Assignment(b, c));
  }

  /** A customer some unused truck reaches adds one pair, for it. */
  lemma ChosenTruck(obs: seq<seq<SearchResult<Action>>>, c: nat) returns (b: nat)
    requires c < |obs|
    requires exists t :: 0 <= t < |obs[c]| && t !in OnceGreedy(obs, c).usedTrucks && obs[c][t].cost.Fin?
    ensures OnceGreedy(obs, c + 1).assignments == OnceGreedy(obs, c).assignments + [Assignment(b, c)]
  {
    var p := OnceGreedy(obs, c);
    var rs := obs[c];
    var m := UnusedMin(rs, p.usedTrucks, |rs|).1;
    assert m != -1 by {
      UnusedMinFacts(rs, p.usedTrucks, |rs|);
      var t :| 0 <= t < |rs| && t !in p.usedTrucks && rs[t].cost.Fin?;
    }
    b := m;
  }

  /** The pair added for customer `c` stays in its place to the end. */
  lemma PairKept(obs: seq<seq<SearchResult<Action>>>, n: nat, c: nat, x: Assignment)
    requires c < n <= |obs|
    requires OnceGreedy(obs, c + 1).assignments == OnceGreedy(obs, c).assignments + [x]
    ensures var k := |OnceGreedy(obs, c).assignments|;
      k < |OnceGreedy(obs, n).assignments| && OnceGreedy(obs, n).assignments[k] == x
  {
    OnceGrows(obs, c + 1, n);
    Appended(OnceGreedy(obs, c).assignments, OnceGreedy(obs, c + 1).assignments, OnceGreedy(obs, n).assignments, x);
  }

  lemma Appended<T>(prev: seq<T>, next: seq<T>, longer: seq<T>, x: T)
    requires next == prev + [x] && next <= longer
    ensures |prev| < |longer| && longer[|prev|] == x
  {
    assert next[|prev|] == x;
  }

  /** A customer no unused truck reaches is in no pair. */
  lemma UnservedWhenUnreached(obs: seq<seq<SearchResult<Action>>>, n: nat, c: nat)
    requires c < n <= |obs|
    requires forall t :: 0 <= t < |obs[c]| && t !in OnceGreedy(obs, c).usedTrucks ==> obs[c][t].cost.Inf?
    ensures forall k :: 0 <= k < |OnceGreedy(obs, n).assignments| ==> OnceGreedy(obs, n).assignments[k].customer != c
  {
    NoneChosen(obs, c);
    SkipKept(obs, n, c);
  }

  /** A customer no unused truck reaches leaves the state as it was. */
  lemma NoneChosen(obs: seq<seq<SearchResult<Action>>>, c: nat)
    requires c < |obs|
    requires forall t :: 0 <= t < |obs[c]| && t !in OnceGreedy(obs, c).usedTrucks ==> obs[c][t].cost.Inf?
    ensures OnceGreedy(obs, c + 1) == OnceGreedy(obs, c)
  {
    var p := OnceGreedy(obs, c);
    UnusedMinFacts(obs[c], p.usedTrucks, |obs[c]|);
  }

  /** A customer skipped by its step is in no pair at the end. */
  lemma SkipKept(obs: seq<seq<SearchResult<Action>>>, n: nat, c: nat)
    requires c < n <= |obs|
    requires OnceGreedy(obs, c + 1) == OnceGreedy(obs, c)
    ensures forall k :: 0 <= k < |OnceGreedy(obs, n).assignments| ==> OnceGreedy(obs, n).assignments[k].customer != c
  {
    var prev := OnceGreedy(obs, c).assignments;
    var pairs := OnceGreedy(obs, n).assignments;
    OnceGrows(obs, c + 1, n);
    CustomersIncreasing(obs, c);
    forall k | 0 <= k < |pairs|
      ensures pairs[k].customer != c
    {
      if k < |prev| {
        assert pairs[k] == prev[k];
      }
    }
  }

  // ------------------------------------------------------------------
  // The planner

  /** The row of searches for customer `c` holds, for every truck not in
      `used`, a result the delivery search promises. */
  ghost predicate RowProbed(traffic: Traffic, ts: seq<Tunnel>, trucks: seq<State>, g: State,
                            x: Strategy, used: set<nat>, rs: seq<SearchResult<Action>>)
  {
    |rs| <= |trucks| &&
    forall t :: 0 <= t < |rs| && t !in used ==> Searched(1, traffic, ts, trucks[t], g, x, rs[t])
  }

  /** `DeliveryPlanner` with its final fields. */
  class DeliveryPlanner {
    const stores: seq<State>
    const customers: seq<State>
    const trucks: seq<State>
    const ds: DeliverySearch
    const strategy: Strategy

    constructor(stores: seq<State>, customers: seq<State>, trucks: seq<State>, ds: DeliverySearch, strategy: Strategy)
      ensures this.stores == stores && this.customers == customers && this.trucks == trucks
      ensures this.ds == ds && this.strategy == strategy
    {
      this.stores := stores;
      this.customers := customers;
      this.trucks := trucks;
      this.ds := ds;
      this.strategy := strategy;
    }

    /** Every observed row has an entry per truck, and every row holds
        promised results for the trucks that were unused at its customer. */
    ghost predicate Probed(obs: seq<seq<SearchResult<Action>>>) {
      |obs| <= |customers| &&
      forall c :: 0 <= c < |obs| ==>
        |obs[c]| == |trucks| &&
        RowProbed(ds.traffic, ds.tunnels, trucks, customers[c], strategy, OnceGreedy(obs, c).usedTrucks, obs[c])
    }

    /** `assign`: the customers in order, each with the cheapest unused
        truck if one has a path, the truck then marked used. */
    method Assign() returns (assignments: seq<Assignment>, ghost obs: seq<seq<SearchResult<Action>>>)
      modifies ds, ds.h1, ds.h2
      ensures |obs| == |customers| && Probed(obs)
      ensures assignments == OnceGreedy(obs, |customers|).assignments
    {
      assignments := [];
      var usedTrucks: set<nat> := {};
      obs := [];
      for c := 0 to |customers|
        invariant |obs| == c && Probed(obs)
        invariant OnceGreedy(obs, c) == Progress(assignments, usedTrucks)
      {
        assignments, usedTrucks, obs := AssignOne(c, obs, assignments, usedTrucks);
      }
    }

    /** One turn of the outer loop: customer `c` gets the cheapest
        unused truck if one has a path, and that truck is marked used. */
    method AssignOne(c: nat, ghost obs: seq<seq<SearchResult<Action>>>, assignments: seq<Assignment>, usedTrucks: set<nat>)
      returns (assignments': seq<Assignment>, usedTrucks': set<nat>, ghost obs': seq<seq<SearchResult<Action>>>)
      requires c == |obs| < |customers| && Probed(obs)
      requires OnceGreedy(obs, |obs|) == Progress(assignments, usedTrucks)
      modifies ds, ds.h1, ds.h2
      ensures |obs'| == |obs| + 1 && Probed(obs')
      ensures OnceGreedy(obs', |obs'|) == Progress(assignments', usedTrucks')
    {
      var bestTruck, rs := BestUnused(c, usedTrucks);
      NextProgress(obs, rs);
      ProbedStep(obs, rs);
      assignments', usedTrucks' := assignments, usedTrucks;
      if bestTruck != -1 {
        assignments' := assignments + [Assignment(bestTruck, c)];
        usedTrucks' := usedTrucks + {bestTruck};
      }
      obs' := obs + [rs];
    }

    /** Adding a row probed with the trucks used so far keeps `Probed`. */
    lemma ProbedStep(obs: seq<seq<SearchResult<Action>>>, rs: seq<SearchResult<Action>>)
      requires Probed(obs) && |obs| < |customers| && |rs| == |trucks|
      requires RowProbed(ds.traffic, ds.tunnels, trucks, customers[|obs|], strategy, OnceGreedy(obs, |obs|).usedTrucks, rs)
      ensures Probed(obs + [rs])
    {
      var next := obs + [rs];
      forall c | 0 <= c < |next|
        ensures |next[c]| == |trucks|
        ensures RowProbed(ds.traffic, ds.tunnels, trucks, customers[c], strategy, OnceGreedy(next, c).usedTrucks, next[c])
      {
        OncePrefix(obs, [rs], c);
        if c < |obs| {
          assert next[c] == obs[c];
        }
      }
    }

    /** With any strategy but ID, whose searches fail exactly when the goal
        is unreachable, customer `c` is given a truck exactly when some
        truck not used by the customers before it can reach it. */
    lemma ServedIffReachable(obs: seq<seq<SearchResult<Action>>>, c: nat)
      requires |obs| == |customers| && Probed(obs) && c < |customers| && strategy != ID
      ensures var pairs := OnceGreedy(obs, |customers|).assignments;
        (exists k :: 0 <= k < |pairs| && pairs[k].customer == c)
          <==> exists t :: 0 <= t < |trucks| && t !in OnceGreedy(obs, c).usedTrucks
                 && GoalReachable(ProblemOf(ds.traffic, ds.tunnels, trucks[t], customers[c]))
    {
      Served(obs, |customers|, c);
      var used := OnceGreedy(obs, c).usedTrucks;
      assert RowProbed(ds.traffic, ds.tunnels, trucks, customers[c], strategy, used, obs[c]);
      forall t | 0 <= t < |trucks| && t !in used
        ensures obs[c][t].cost.Fin? <==> GoalReachable(ProblemOf(ds.traffic, ds.tunnels, trucks[t], customers[c]))
      {
        Unseal(ds.traffic, ds.tunnels, trucks[t], customers[c], strategy, obs[c][t]);
        PromisedCost(ds.traffic, ds.tunnels, trucks[t], customers[c], strategy, obs[c][t]);
      }
    }

    /** The inner loop: the running minimum over the unused trucks, a
        search for each of them and a cost read from every text other than
        `"no path;0;0"`. */
    method BestUnused(c: nat, usedTrucks: set<nat>) returns (bestTruck: int, ghost rs: seq<SearchResult<Action>>)
      requires c < |customers|
      modifies ds, ds.h1, ds.h2
      ensures |rs| == |trucks|
      ensures bestTruck == UnusedMin(rs, usedTrucks, |rs|).1
      ensures RowProbed(ds.traffic, ds.tunnels, trucks, customers[c], strategy, usedTrucks, rs)
    {
      var minCost := Inf;
      bestTruck := -1;
      rs := [];
      for t := 0 to |trucks|
        invariant |rs| == t
        invariant (minCost, bestTruck) == UnusedMin(rs, usedTrucks, t)
        invariant RowProbed(ds.traffic, ds.tunnels, trucks, customers[c], strategy, usedTrucks, rs)
      {
        var r := Skipped;
        if t !in usedTrucks {
          var found, cost;
          r, found, cost := Probe(t, c);
          if found && Lt(cost, minCost) {
            minCost := cost;
            bestTruck := t;
          }
        }
        RowStep(ds.traffic, ds.tunnels, trucks, customers[c], strategy, usedTrucks, rs, r);
        UnusedMinPrefix(rs, [r], usedTrucks, t);
        rs := rs + [r];
      }
    }

    /** One search of the inner loop: the path text for truck `t` and
        customer `c`, and the cost read from its second field unless it is
        `"no path;0;0"`. */
    method Probe(t: nat, c: nat) returns (r: SearchResult<Action>, found: bool, cost: Cost)
      requires t < |trucks| && c < |customers|
      modifies ds, ds.h1, ds.h2
      ensures Searched(1, ds.traffic, ds.tunnels, trucks[t], customers[c], strategy, r)
      ensures found <==> r.cost.Fin?
      ensures found ==> cost == TextCost(r)
    {
      var pathStr;
      r, pathStr := SealedPath(ds, trucks[t], customers[c], strategy);
      NoPathExactly(r);
      found := pathStr != NoPathText;
      cost := Inf;
      if found {
        PathFields(r);
        ParseDoubleOfInt(SaturateInt(r.cost.v));
        var parts := Split(pathStr, ';');
        cost := ParseDouble(parts[1]).value;
      }
    }
  }

  /** A row gains an entry that is promised unless its truck is used. */
  lemma RowStep(traffic: Traffic, ts: seq<Tunnel>, trucks: seq<State>, g: State, x: Strategy,
                used: set<nat>, rs: seq<SearchResult<Action>>, r: SearchResult<Action>)
    requires RowProbed(traffic, ts, trucks, g, x, used, rs) && |rs| < |trucks|
    requires |rs| !in used ==> Searched(1, traffic, ts, trucks[|rs|], g, x, r)
    ensures RowProbed(traffic, ts, trucks, g, x, used, rs + [r])
  {
    var next := rs + [r];
    forall t | 0 <= t < |next| && t !in used
      ensures Searched(1, traffic, ts, trucks[t], g, x, next[t])
    {
      if t < |rs| {
        assert next[t] == rs[t];
      }
    }
  }
}
