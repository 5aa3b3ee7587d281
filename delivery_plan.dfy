/** The instance `plan` of backend/src/main/java/code/DeliverySearch.java:
    a fresh planner assigns the customers, then every pair is searched
    again from the truck's current position and written as one line
    `(Store<t>,Customer<c>);<actions>;<cost>;<nodes>`. A pair without a path
    writes nothing and leaves the truck where it is; after a delivery the
    truck is back at its store. */
module DeliveryPlan {
  import opened Wrappers
  import opened Costs
  import opened Grid
  import opened SearchModel
  import opened Strategies
  import opened Actions
  import opened Tunnels
  import opened JavaText
  import opened DeliveryInput
  import opened Delivery
  import opened PlannerCommon
  import opened BackendPlanner

  /** One line of the plan, without its line break. */
  function DeliveryLine(t: nat, c: nat, r: SearchResult<Action>): string {
    "(Store" + IntToString(t) + ",Customer" + IntToString(c) + ");" + PathText(r)
  }

  /** The position of truck `t` once the pairs searched so far (one result
      each) are done: its first position until it delivers, its store after. */
  function Position(trucks: seq<State>, stores: seq<State>, assignments: seq<Assignment>,
                    results: seq<SearchResult<Action>>, t: nat): State
    requires |results| <= |assignments| && t < |trucks| && t < |stores|
    decreases |results|
  {
    if |results| == 0 then trucks[t]
    else
      var k := |results| - 1;
      if assignments[k].truck == t && results[k].cost.Fin? then stores[t]
      else Position(trucks, stores, assignments, results[..k], t)
  }

  /** The lines written for the pairs searched so far: one per pair whose
      search found a path. */
  function Lines(assignments: seq<Assignment>, results: seq<SearchResult<Action>>): (lines: seq<string>)
    requires |results| <= |assignments|
    ensures |lines| <= |results|
    decreases |results|
  {
    if |results| == 0 then []
    else
      var k := |results| - 1;
      Lines(assignments, results[..k])
        + (if results[k].cost.Fin? then [DeliveryLine(assignments[k].truck, assignments[k].customer, results[k])] else [])
  }

  /** One more result adds its line, if its search found a path. */
  lemma LinesStep(assignments: seq<Assignment>, results: seq<SearchResult<Action>>, r: SearchResult<Action>)
    requires |results| < |assignments|
    ensures var k := |results|;
      Lines(assignments, results + [r]) == Lines(assignments, results)
        + (if r.cost.Fin? then [DeliveryLine(assignments[k].truck, assignments[k].customer, r)] else [])
  {
    assert (results + [r])[..|results|] == results;
  }

  /** What the `StringBuilder` holds: every line followed by a line break. */
  function Report(lines: seq<string>): string
    decreases |lines|
  {
    if |lines| == 0 then "" else Report(lines[..|lines| - 1]) + lines[|lines| - 1] + "\n"
  }

  /** Appending a line appends it and a line break. */
  lemma ReportStep(lines: seq<string>, line: string)
    ensures Report(lines + [line]) == Report(lines) + line + "\n"
  {
    assert (lines + [line])[..|lines|] == lines;
  }

  /** `Promised` one recursive call away, so that a loop invariant over
      every searched pair does not unfold the search promise at each step. */
  ghost predicate Searched(depth: nat, traffic: Traffic, ts: seq<Tunnel>, s: State, g: State, x: Strategy, r: SearchResult<Action>)
    decreases depth
  {
    if depth == 0 then Promised(traffic, ts, s, g, x, r) else Searched(depth - 1, traffic, ts, s, g, x, r)
  }

  lemma Seal(traffic: Traffic, ts: seq<Tunnel>, s: State, g: State, x: Strategy, r: SearchResult<Action>)
    requires Promised(traffic, ts, s, g, x, r)
    ensures Searched(1, traffic, ts, s, g, x, r)
  {
    assert Searched(0, traffic, ts, s, g, x, r);
  }

  /** A sealed search result is a promised one. */
  lemma Unseal(traffic: Traffic, ts: seq<Tunnel>, s: State, g: State, x: Strategy, r: SearchResult<Action>)
    requires Searched(1, traffic, ts, s, g, x, r)
    ensures Promised(traffic, ts, s, g, x, r)
  {
    assert Searched(0, traffic, ts, s, g, x, r);
  }

  /** The pairs searched so far, one start and one result each: every
      pair was searched from where its truck then was, and its result is
      what `path` promises for that search. */
  ghost predicate Delivered(traffic: Traffic, ts: seq<Tunnel>, trucks: seq<State>, stores: seq<State>, customers: seq<State>,
                            x: Strategy, assignments: seq<Assignment>, starts: seq<State>, results: seq<SearchResult<Action>>) {
    && |starts| == |results| <= |assignments|
    && |trucks| <= |stores| && PairsInRange(assignments, |trucks|, |customers|)
    && forall j :: 0 <= j < |results| ==>
      && starts[j] == Position(trucks, stores, assignments, results[..j], assignments[j].truck)
      && Searched(1, traffic, ts, starts[j], customers[assignments[j].customer], x, results[j])
  }

  /** `positions` holds where every truck is once the pairs of `results`
      are done. */
  ghost predicate AtPositions(positions: seq<State>, trucks: seq<State>, stores: seq<State>,
                              assignments: seq<Assignment>, results: seq<SearchResult<Action>>) {
    && |positions| == |trucks| <= |stores| && |results| <= |assignments|
    && forall t :: 0 <= t < |trucks| ==> positions[t] == Position(trucks, stores, assignments, results, t)
  }

  /** After a found path the truck of the pair is back at its store;
      otherwise no truck moves. */
  lemma PositionsStep(positions: seq<State>, positions': seq<State>, trucks: seq<State>, stores: seq<State>,
                      assignments: seq<Assignment>, results: seq<SearchResult<Action>>, r: SearchResult<Action>)
    requires AtPositions(positions, trucks, stores, assignments, results)
    requires |results| < |assignments| && assignments[|results|].truck < |trucks|
    requires var t := assignments[|results|].truck;
      positions' == if r.cost.Fin? then positions[t := stores[t]] else positions
    ensures AtPositions(positions', trucks, stores, assignments, results + [r])
  {
    assert (results + [r])[..|results|] == results;
  }

  /** One more pair, searched from where its truck is. */
  lemma {:induction false} DeliveredStep(traffic: Traffic, ts: seq<Tunnel>, trucks: seq<State>, stores: seq<State>, customers: seq<State>,
                      x: Strategy, assignments: seq<Assignment>, starts: seq<State>, results: seq<SearchResult<Action>>,
                      s: State, r: SearchResult<Action>)
    requires Delivered(traffic, ts, trucks, stores, customers, x, assignments, starts, results)
    requires |results| < |assignments|
    requires s == Position(trucks, stores, assignments, results, assignments[|results|].truck)
    requires Searched(1, traffic, ts, s, customers[assignments[|results|].customer], x, r)
    ensures Delivered(traffic, ts, trucks, stores, customers, x, assignments, starts + [s], results + [r])
  {
    var results' := results + [r];
    assert results'[..|results|] == results;
    assert forall j :: 0 <= j < |results| ==> results'[..j] == results[..j];
  }

  // ------------------------------------------------------------------
  // The text of the plan

  /** No result text holds a line break. */
  lemma PathTextNoNewline(r: SearchResult<Action>)
    ensures '\n' !in PathText(r)
  {
    if r.cost.Fin? {
      var names := Names(r.actions);
      forall i | 0 <= i < |names|
        ensures '\n' !in names[i]
      {
        assert names[i] == Actions.ToString(r.actions[i]);
      }
      JoinAvoids(names, ',', '\n');
      IntToStringHasNo(SaturateInt(r.cost.v), '\n');
      IntToStringHasNo(r.nodesExpanded, '\n');
    }
  }

  /** A line as `trim` and a split on line breaks see it: no line break
      inside, `(` first and no white space last. */
  predicate Shaped(line: string) {
    '\n' !in line && |line| > 0 && line[0] == '(' && !IsSpace(line[|line| - 1])
  }

  /** A found path's text ends with the last digit of the count. */
  lemma PathTextEnd(r: SearchResult<Action>)
    requires r.cost.Fin?
    ensures var p := PathText(r);
      |p| > 0 && !IsSpace(p[|p| - 1]) && '\n' !in p
  {
    var p := PathText(r);
    var nodes := IntToString(r.nodesExpanded);
    PathTextNoNewline(r);
    IntToStringNoSpace(r.nodesExpanded);
    assert p == ActionsText(r.actions) + ";" + IntToString(SaturateInt(r.cost.v)) + ";" + nodes;
    assert p[|p| - 1] == nodes[|nodes| - 1];
  }

  /** A text with no line break that starts with `(` and another with no
      line break that ends in a non-space make a shaped line. */
  lemma ShapedJoin(pre: string, p: string)
    requires '\n' !in pre && |pre| > 0 && pre[0] == '('
    requires '\n' !in p && |p| > 0 && !IsSpace(p[|p| - 1])
    ensures Shaped(pre + p)
  {
    var line := pre + p;
    assert line[0] == pre[0];
    assert line[|line| - 1] == p[|p| - 1];
  }

  /** The line of a found path is shaped: it ends with the last digit of
      the expansion count. */
  lemma LineShape(t: nat, c: nat, r: SearchResult<Action>)
    requires r.cost.Fin?
    ensures Shaped(DeliveryLine(t, c, r))
  {
    var a, b := IntToString(t), IntToString(c);
    var pre := "(Store" + a + ",Customer" + b + ");";
    IntToStringHasNo(t, '\n');
    IntToStringHasNo(c, '\n');
    assert '\n' !in "(Store" && '\n' !in ",Customer" && '\n' !in ");";
    assert pre[0] == '(';
    PathTextEnd(r);
    ShapedJoin(pre, PathText(r));
    assert DeliveryLine(t, c, r) == pre + PathText(r);
  }

  /** Every written line is shaped. */
  lemma {:induction false} LinesShape(assignments: seq<Assignment>, results: seq<SearchResult<Action>>)
    requires |results| <= |assignments|
    ensures forall i :: 0 <= i < |Lines(assignments, results)| ==> Shaped(Lines(assignments, results)[i])
    decreases |results|
  {
    if |results| > 0 {
      var k := |results| - 1;
      LinesShape(assignments, results[..k]);
      if results[k].cost.Fin? {
        LineShape(assignments[k].truck, assignments[k].customer, results[k]);
      }
    }
  }

  /** The lines, each followed by a line break, are the lines joined with
      line breaks, plus one more. */
  lemma {:induction false} ReportJoin(lines: seq<string>)
    requires |lines| > 0
    ensures Report(lines) == Join(lines, '\n') + "\n"
    decreases |lines|
  {
    if |lines| > 1 {
      var init := lines[..|lines| - 1];
      ReportJoin(init);
      JoinSnoc(init, lines[|lines| - 1], '\n');
      assert init + [lines[|lines| - 1]] == lines;
    }
  }

  /** `sb.toString().trim()`: the lines joined with line breaks, since no
      line starts or ends with white space. */
  lemma TrimReport(lines: seq<string>)
    requires forall i :: 0 <= i < |lines| ==> |lines[i]| > 0 && !IsSpace(lines[i][0]) && !IsSpace(lines[i][|lines[i]| - 1])
    ensures Trim(Report(lines)) == Join(lines, '\n')
  {
    if |lines| > 0 {
      ReportJoin(lines);
      var j := Join(lines, '\n');
      JoinEnds(lines, '\n');
      var s := j + "\n";
      assert TrimStart(s) == s;
      assert s[..|s| - 1] == j;
      assert TrimEnd(s) == TrimEnd(j);
    }
  }

  /** A join of non-empty parts starts with the first part's first
      character and ends with the last part's last character. */
  lemma {:induction false} JoinEnds(parts: seq<string>, sep: char)
    requires |parts| > 0 && forall i :: 0 <= i < |parts| ==> |parts[i]| > 0
    ensures var j := Join(parts, sep);
      (|j| > 0 && j[0] == parts[0][0] && j[|j| - 1] == parts[|parts| - 1][|parts[|parts| - 1]| - 1])
    decreases |parts|
  {
    if |parts| > 1 {
      JoinEnds(parts[1..], sep);
    }
  }

  /** Reading the plan back line by line gives the written lines. */
  lemma PlanLines(assignments: seq<Assignment>, results: seq<SearchResult<Action>>)
    requires |results| <= |assignments| && |Lines(assignments, results)| > 0
    ensures Split(Trim(Report(Lines(assignments, results))), '\n') == Lines(assignments, results)
  {
    var lines := Lines(assignments, results);
    LinesShape(assignments, results);
    TrimReport(lines);
    SplitJoin(lines, '\n');
  }

  // ------------------------------------------------------------------
  // The plan

  /** The pairs of the greedy assignment name trucks and customers that exist. */
  lemma GreedyInRange(cols: seq<seq<Cost>>, trucks: nat)
    requires forall c :: 0 <= c < |cols| ==> |cols[c]| == trucks
    ensures PairsInRange(GreedyPairs(cols, |cols|), trucks, |cols|)
  {
    GreedyChoices(cols, |cols|);
    var g := GreedyPairs(cols, |cols|);
    forall k | 0 <= k < |g|
      ensures g[k].truck < trucks && g[k].customer < |cols|
    {
      BestTruckFacts(cols[g[k].customer]);
    }
  }

  /** `plan`: the planner's assignment, each pair searched from the truck's
      position at that time, one line per pair with a path, and the trimmed
      text. `planner` is the planner `plan` builds, whose cache then holds
      every pair; `starts` and `results` are the positions searched from and
      the results, one per pair. */
  method Plan(ds: DeliverySearch, x: Strategy)
    returns (out: string, ghost planner: DeliveryPlanner, ghost assignments: seq<Assignment>,
             ghost starts: seq<State>, ghost results: seq<SearchResult<Action>>)
    requires |ds.trucks| <= |ds.stores|
    modifies ds, ds.h1, ds.h2
    ensures fresh(planner) && planner.ds == ds && planner.strategy == x
    ensures planner.trucks == ds.trucks && planner.customers == ds.customers && planner.stores == ds.stores
    ensures planner.Valid() && planner.AllCached()
    ensures assignments == GreedyPairs(planner.CostColumns(), |ds.customers|)
    ensures PairsInRange(assignments, |ds.trucks|, |ds.customers|)
    ensures |starts| == |results| == |assignments|
    ensures Delivered(ds.traffic, ds.tunnels, ds.trucks, ds.stores, ds.customers, x, assignments, starts, results)
    ensures out == Join(Lines(assignments, results), '\n')
  {
    var deliveryPlanner, pairs := Assigned(ds, x);
    planner, assignments := deliveryPlanner, pairs;
    ghost var cache := deliveryPlanner.pathCache;
    var sb;
    sb, starts, results := Deliver(ds, x, pairs);
    assert deliveryPlanner.pathCache == cache;
    LinesShape(assignments, results);
    TrimReport(Lines(assignments, results));
    out := Trim(sb);
  }

  /** The first half of `plan`: a planner over the input, and its greedy
      pairs, every one of them in range. */
  method Assigned(ds: DeliverySearch, x: Strategy) returns (planner: DeliveryPlanner, assignments: seq<Assignment>)
    modifies ds, ds.h1, ds.h2
    ensures fresh(planner) && planner.ds == ds && planner.strategy == x
    ensures planner.trucks == ds.trucks && planner.customers == ds.customers && planner.stores == ds.stores
    ensures planner.Valid() && planner.AllCached()
    ensures assignments == GreedyPairs(planner.CostColumns(), |ds.customers|)
    ensures PairsInRange(assignments, |ds.trucks|, |ds.customers|)
  {
    planner := new DeliveryPlanner(ds.stores, ds.customers, ds.trucks, ds, x);
    assignments := planner.Assign();
    GreedyInRange(planner.CostColumns(), |ds.trucks|);
  }

  /** The loop of `plan`: every pair searched from where its truck is, the
      line of every found path appended, and the truck sent back to its
      store after a delivery. */
  method Deliver(ds: DeliverySearch, x: Strategy, assignments: seq<Assignment>)
    returns (sb: string, ghost starts: seq<State>, ghost results: seq<SearchResult<Action>>)
    requires |ds.trucks| <= |ds.stores| && PairsInRange(assignments, |ds.trucks|, |ds.customers|)
    modifies ds, ds.h1, ds.h2
    ensures |starts| == |results| == |assignments|
    ensures Delivered(ds.traffic, ds.tunnels, ds.trucks, ds.stores, ds.customers, x, assignments, starts, results)
    ensures sb == Report(Lines(assignments, results))
  {
    sb := "";
    var currentTruckPositions := ds.trucks;
    starts, results := [], [];
    ghost var lines: seq<string> := [];
    assert AtPositions(currentTruckPositions, ds.trucks, ds.stores, assignments, results);
    for k := 0 to |assignments|
      invariant |starts| == |results| == k
      invariant AtPositions(currentTruckPositions, ds.trucks, ds.stores, assignments, results)
      invariant Delivered(ds.traffic, ds.tunnels, ds.trucks, ds.stores, ds.customers, x, assignments, starts, results)
      invariant lines == Lines(assignments, results) && sb == Report(lines)
    {
      ghost var positions := currentTruckPositions;
      var startPos, result;
      sb, currentTruckPositions, startPos, result := DeliverPair(ds, x, assignments[k].truck, assignments[k].customer, sb, currentTruckPositions);
      PositionsStep(positions, currentTruckPositions, ds.trucks, ds.stores, assignments, results, result);
      DeliveredStep(ds.traffic, ds.tunnels, ds.trucks, ds.stores, ds.customers, x, assignments, starts, results, startPos, result);
      LinesStep(assignments, results, result);
      if result.cost.Fin? {
        ghost var line := DeliveryLine(assignments[k].truck, assignments[k].customer, result);
        ReportStep(lines, line);
        lines := lines + [line];
      }
      starts, results := starts + [startPos], results + [result];
    }
  }

  /** One turn of the loop of `plan`: search pair `(truckIdx, customerIdx)`
      from where the truck is; for a found path append its line and send the
      truck back to its store. */
  method DeliverPair(ds: DeliverySearch, x: Strategy, truckIdx: nat, customerIdx: nat, sb: string, currentTruckPositions: seq<State>)
    returns (sb': string, positions': seq<State>, startPos: State, result: SearchResult<Action>)
    requires truckIdx < |currentTruckPositions| <= |ds.stores| && customerIdx < |ds.customers|
    modifies ds, ds.h1, ds.h2
    ensures startPos == currentTruckPositions[truckIdx]
    ensures Searched(1, ds.traffic, ds.tunnels, startPos, ds.customers[customerIdx], x, result)
    ensures result.cost.Fin? ==>
      sb' == sb + DeliveryLine(truckIdx, customerIdx, result) + "\n" && positions' == currentTruckPositions[truckIdx := ds.stores[truckIdx]]
    ensures result.cost.Inf? ==> sb' == sb && positions' == currentTruckPositions
  {
    startPos := currentTruckPositions[truckIdx];
    var goalPos := ds.customers[customerIdx];
    var text;
    result, text := SealedPath(ds, startPos, goalPos, x);
    sb', positions' := sb, currentTruckPositions;
    if result.cost.Fin? {
      var line := DeliveryLine(truckIdx, customerIdx, result);
      sb' := sb' + line + "\n";
      positions' := positions'[truckIdx := goalPos];
      positions' := positions'[truckIdx := ds.stores[truckIdx]];
    }
  }

  /** `path`, with its promise sealed as `Searched`. */
  method SealedPath(ds: DeliverySearch, s: State, g: State, x: Strategy) returns (r: SearchResult<Action>, out: string)
    modifies ds, ds.h1, ds.h2
    ensures Searched(1, ds.traffic, ds.tunnels, s, g, x, r)
    ensures out == PathText(r)
  {
    r, out := Path(ds, s, g, x);
    Seal(ds.traffic, ds.tunnels, s, g, x, r);
  }

  /** The static `plan`: parse the input, read the strategy code, and plan.
      A malformed input or an unknown code is a failure. Otherwise the text
      is the join of the lines of the greedy pairs over the costs the
      searches answer, each pair searched from where its truck is. */
  method PlanFromStrings(initial: string, trafficStr: string, strategy: string)
    returns (r: Result<string>, ghost cols: seq<seq<Cost>>, ghost assignments: seq<Assignment>,
             ghost starts: seq<State>, ghost results: seq<SearchResult<Action>>)
    ensures r.Success? ==> ConfigOf(initial, trafficStr).Success? && Strategies.FromString(strategy).Success?
    ensures ConfigOf(initial, trafficStr).Success? && Strategies.FromString(strategy).Success? ==> r.Success?
    ensures r.Success? ==>
      var c := ConfigOf(initial, trafficStr).value;
      var x := Strategies.FromString(strategy).value;
      && MatrixRead(c.traffic, c.tunnels, c.trucks, c.customers, x, cols)
      && assignments == GreedyPairs(cols, |c.customers|)
      && |starts| == |results| == |assignments|
      && Delivered(c.traffic, c.tunnels, c.trucks, c.stores, c.customers, x, assignments, starts, results)
      && r.value == Join(Lines(assignments, results), '\n')
  {
    cols, assignments, starts, results := [], [], [], [];
    var ds := FromStrings(initial, trafficStr);
    if ds.Failure? {
      return Failure(ds.error), cols, assignments, starts, results;
    }
    var x := Strategies.FromString(strategy);
    if x.Failure? {
      return Failure(x.error), cols, assignments, starts, results;
    }
    var out;
    ghost var planner;
    out, planner, assignments, starts, results := Plan(ds.value, x.value);
    planner.ColumnsAnswered();
    cols := planner.CostColumns();
    return Success(out), cols, assignments, starts, results;
  }
}
