/** The instance `plan` and the static `solve` of src/code/DeliverySearch.java:
    a fresh planner assigns the customers, every pair is searched again from
    the truck's first position, and the text of each found path is split
    into its fields and rebuilt as `(Truck<t>,Customer<c>);<actions>;<cost>;<nodes>`.
    Trucks never move here; a pair without a path writes nothing. */
module LegacyPlan {
  import opened Wrappers
  import opened Costs
  import opened Grid
  import opened SearchModel
  import opened Strategies
  import opened Tunnels
  import opened JavaText
  import opened Actions
  import opened DeliveryInput
  import opened PlannerCommon
  import opened LegacyDelivery
  import opened LegacyPlanner
  import DeliveryPlan
  import BackendPlanner
  import Delivery

  /** The `(int)` cast of a double: +infinity is `Integer.MAX_VALUE`, a
      finite value saturates at the 32-bit range. */
  function IntCast(c: Cost): (r: int)
    ensures InInt32(r)
    ensures c.Fin? && InInt32(c.v) ==> r == c.v
  {
    if c.Inf? then MaxInt else SaturateInt(c.v)
  }

  /** A line as the loop of `plan` builds it from its parts. */
  function PlanLine(t: nat, c: nat, actions: string, cost: int, nodes: int): string {
    "(Truck" + IntToString(t) + ",Customer" + IntToString(c) + ");" + actions + ";" + IntToString(cost) + ";" + IntToString(nodes)
  }

  /** What the loop of `plan` does with the text `path` returned for pair
      `(t, c)`: nothing for `"no path;0;0"`; otherwise split it at `;`,
      parse the cost and the count and rebuild the line. A missing field
      and a field that does not parse are the Java exceptions. */
  function LineOf(t: nat, c: nat, text: string): Result<Option<string>> {
    if text == Delivery.NoPathText then Success(None)
    else
      var parts := Split(text, ';');
      if |parts| < 2 then Failure(OutOfBounds)
      else
        match ParseDouble(parts[1])
        case None => Failure("not a number")
        case Some(pathCost) =>
          if |parts| < 3 then Failure(OutOfBounds)
          else
            match ParseInt(parts[2])
            case Failure(e) => Failure(e)
            case Success(nodes) => Success(Some(PlanLine(t, c, parts[0], IntCast(pathCost), nodes)))
  }

  /** The line of a found path: the pair, then the path text unchanged. */
  function Line(t: nat, c: nat, r: SearchResult<Action>): string {
    "(Truck" + IntToString(t) + ",Customer" + IntToString(c) + ");" + Delivery.PathText(r)
  }

  /** `Integer.parseInt` of a printed count: the count itself within the
      32-bit range, a failure beyond it. */
  lemma ParseCount(n: nat)
    ensures InInt32(n) ==> ParseInt(IntToString(n)) == Success(n)
    ensures !InInt32(n) ==> ParseInt(IntToString(n)).Failure?
  {
    if InInt32(n) {
      IntRoundTrip(n);
    } else {
      var d := IntToString(n);
      DigitsRoundTrip(n);
      assert IsDigit(d[0]);
      assert ParseInt(d) == ParseDigits(false, d);
    }
  }

  /** The fields of a found path's text as the loop of `plan` reads them. */
  lemma FoundFields(r: SearchResult<Action>)
    requires r.cost.Fin?
    ensures Split(Delivery.PathText(r), ';')
      == [Delivery.ActionsText(r.actions), IntToString(SaturateInt(r.cost.v)), IntToString(r.nodesExpanded)]
    ensures ParseDouble(IntToString(SaturateInt(r.cost.v))) == Some(Fin(SaturateInt(r.cost.v)))
  {
    Delivery.PathFields(r);
    ParseDoubleOfInt(SaturateInt(r.cost.v));
  }

  /** `LineOf` on a text of three fields whose cost field parses. */
  lemma LineOfFields(t: nat, c: nat, text: string, actions: string, cost: int, count: string)
    requires text != Delivery.NoPathText && Split(text, ';') == [actions, IntToString(cost), count]
    requires ParseDouble(IntToString(cost)) == Some(Fin(cost)) && InInt32(cost)
    ensures ParseInt(count).Failure? ==> LineOf(t, c, text).Failure?
    ensures ParseInt(count).Success? ==> LineOf(t, c, text) == Success(Some(PlanLine(t, c, actions, cost, ParseInt(count).value)))
  {
  }

  /** The line rebuilt from the fields of a text is the pair and the text. */
  lemma RebuiltLine(t: nat, c: nat, actions: string, cost: int, n: int, text: string)
    requires text == actions + ";" + IntToString(cost) + ";" + IntToString(n)
    ensures PlanLine(t, c, actions, cost, n) == "(Truck" + IntToString(t) + ",Customer" + IntToString(c) + ");" + text
  {
  }

  /** Rebuilding the text of a search result: nothing for no path; for a
      found path the pair followed by the text as it was, unless the count
      is beyond a 32-bit `int`, which `parseInt` rejects. */
  lemma LineOfPath(t: nat, c: nat, r: SearchResult<Action>)
    ensures LineOf(t, c, Delivery.PathText(r)).Success? <==> r.cost.Inf? || InInt32(r.nodesExpanded)
    ensures LineOf(t, c, Delivery.PathText(r)).Success? ==>
      LineOf(t, c, Delivery.PathText(r)).value == if r.cost.Inf? then None else Some(Line(t, c, r))
  {
    Delivery.NoPathExactly(r);
    if r.cost.Fin? {
      var actions := Delivery.ActionsText(r.actions);
      var cost := SaturateInt(r.cost.v);
      var count := IntToString(r.nodesExpanded);
      FoundFields(r);
      ParseCount(r.nodesExpanded);
      LineOfFields(t, c, Delivery.PathText(r), actions, cost, count);
      RebuiltLine(t, c, actions, cost, r.nodesExpanded, Delivery.PathText(r));
    }
  }

  // ------------------------------------------------------------------
  // The text of the plan

  /** The lines written for the pairs searched so far: one per pair whose
      search found a path. */
  function Lines(assignments: seq<Assignment>, results: seq<SearchResult<Action>>): (lines: seq<string>)
    requires |results| <= |assignments|
    ensures |lines| <= |results|
    decreases |results|
  {
    if |results| == 0 then []
    else
      var k := |results| - 1;
      Lines(assignments, results[..k])
        + (if results[k].cost.Fin? then [Line(assignments[k].truck, assignments[k].customer, results[k])] else [])
  }

  lemma LinesStep(assignments: seq<Assignment>, results: seq<SearchResult<Action>>, r: SearchResult<Action>)
    requires |results| < |assignments|
    ensures var k := |results|;
      Lines(assignments, results + [r]) == Lines(assignments, results)
        + (if r.cost.Fin? then [Line(assignments[k].truck, assignments[k].customer, r)] else [])
  {
    assert (results + [r])[..|results|] == results;
  }

  /** The line of a found path has no line break, starts with `(` and
      ends with the last digit of the count. */
  lemma LineShape(t: nat, c: nat, r: SearchResult<Action>)
    requires r.cost.Fin?
    ensures DeliveryPlan.Shaped(Line(t, c, r))
  {
    var a, b := IntToString(t), IntToString(c);
    var pre := "(Truck" + a + ",Customer" + b + ");";
    IntToStringHasNo(t, '\n');
    IntToStringHasNo(c, '\n');
    assert '\n' !in "(Truck" && '\n' !in ",Customer" && '\n' !in ");";
    assert pre[0] == '(';
    DeliveryPlan.PathTextEnd(r);
    DeliveryPlan.ShapedJoin(pre, Delivery.PathText(r));
    assert Line(t, c, r) == pre + Delivery.PathText(r);
  }

  lemma {:induction false} LinesShape(assignments: seq<Assignment>, results: seq<SearchResult<Action>>)
    requires |results| <= |assignments|
    ensures forall i :: 0 <= i < |Lines(assignments, results)| ==> DeliveryPlan.Shaped(Lines(assignments, results)[i])
    decreases |results|
  {
    if |results| > 0 {
      var k := |results| - 1;
      LinesShape(assignments, results[..k]);
      if results[k].cost.Fin? {
        LineShape(assignments[k].truck, assignments[k].customer, results[k]);
      }
    }
  }

  /** `sb.toString().trim()` is the lines joined with line breaks. */
  lemma TrimLines(assignments: seq<Assignment>, results: seq<SearchResult<Action>>)
    requires |results| <= |assignments|
    ensures Trim(DeliveryPlan.Report(Lines(assignments, results))) == Join(Lines(assignments, results), '\n')
  {
    LinesShape(assignments, results);
    DeliveryPlan.TrimReport(Lines(assignments, results));
  }

  /** Reading the plan back line by line gives the written lines. */
  lemma PlanLines(assignments: seq<Assignment>, results: seq<SearchResult<Action>>)
    requires |results| <= |assignments| && |Lines(assignments, results)| > 0
    ensures Split(Join(Lines(assignments, results), '\n'), '\n') == Lines(assignments, results)
  {
    LinesShape(assignments, results);
    SplitJoin(Lines(assignments, results), '\n');
  }

  // ------------------------------------------------------------------
  // The searches

  /** `Promised` one recursive call away, so that a loop invariant over
      every searched pair does not unfold the search promise at each step. */
  ghost predicate Searched(depth: nat, traffic: Traffic, ts: seq<Tunnel>, s: State, g: State, r: SearchResult<Action>)
    decreases depth
  {
    if depth == 0 then Promised(traffic, ts, s, g, r) else Searched(depth - 1, traffic, ts, s, g, r)
  }

  /** A sealed search result is a promised one. */
  lemma Unseal(traffic: Traffic, ts: seq<Tunnel>, s: State, g: State, r: SearchResult<Action>)
    requires Searched(1, traffic, ts, s, g, r)
    ensures Promised(traffic, ts, s, g, r)
  {
    assert Searched(0, traffic, ts, s, g, r);
  }

  /** The pairs searched so far: each from its truck's first position to
      its customer, with the result `path` promises for that search. */
  ghost predicate Delivered(traffic: Traffic, ts: seq<Tunnel>, trucks: seq<State>, customers: seq<State>,
                            assignments: seq<Assignment>, results: seq<SearchResult<Action>>) {
    && |results| <= |assignments| && PairsInRange(assignments, |trucks|, |customers|)
    && forall j :: 0 <= j < |results| ==>
      Searched(1, traffic, ts, trucks[assignments[j].truck], customers[assignments[j].customer], results[j])
  }

  lemma {:induction false} DeliveredStep(traffic: Traffic, ts: seq<Tunnel>, trucks: seq<State>, customers: seq<State>,
                                         assignments: seq<Assignment>, results: seq<SearchResult<Action>>, r: SearchResult<Action>)
    requires Delivered(traffic, ts, trucks, customers, assignments, results) && |results| < |assignments|
    requires Searched(1, traffic, ts, trucks[assignments[|results|].truck], customers[assignments[|results|].customer], r)
    ensures Delivered(traffic, ts, trucks, customers, assignments, results + [r])
  {
    var next := results + [r];
    forall j | 0 <= j < |next|
      ensures Searched(1, traffic, ts, trucks[assignments[j].truck], customers[assignments[j].customer], next[j])
    {
      if j < |results| {
        assert next[j] == results[j];
      }
    }
  }

  /** The counts of the results are all within a 32-bit `int` or belong to
      a result without a path. */
  predicate Countable(results: seq<SearchResult<Action>>) {
    forall k :: 0 <= k < |results| ==> results[k].cost.Inf? || InInt32(results[k].nodesExpanded)
  }

  // ------------------------------------------------------------------
  // The plan

  /** `plan`: the planner's assignment, each pair searched from its truck's
      first position, one line per pair with a path, and the trimmed text.
      A failure is the exception of a search with a strategy the engine
      does not have, or of a count beyond a 32-bit `int`. */
  method Plan(ds: LegacyDeliverySearch, x: Strategy)
    returns (out: Result<string>, ghost cols: seq<seq<Cost>>, ghost assignments: seq<Assignment>,
             ghost results: seq<SearchResult<Action>>)
    modifies ds, ds.h1
    ensures out.Success? <==> (x == BF || |ds.trucks| == 0 || |ds.customers| == 0) && Countable(results)
    ensures out.Success? ==> ColumnsRead(ds.traffic, ds.tunnels, ds.trucks, ds.customers, cols)
    ensures out.Success? ==> assignments == BackendPlanner.GreedyPairs(cols, |ds.customers|)
    ensures out.Success? ==> |results| == |assignments|
    ensures out.Success? ==> Delivered(ds.traffic, ds.tunnels, ds.trucks, ds.customers, assignments, results)
    ensures out.Success? ==> out.value == Join(Lines(assignments, results), '\n')
  {
    var planner := new DeliveryPlanner(ds.stores, ds.customers, ds.trucks, ds, x);
    var pairs;
    pairs, cols := planner.Assign();
    results := [];
    if pairs.Failure? {
      return Failure(pairs.error), cols, [], results;
    }
    assignments := pairs.value;
    DeliveryPlan.GreedyInRange(cols, |ds.trucks|);
    if assignments != [] {
      assert assignments[0].truck < |ds.trucks| && assignments[0].customer < |ds.customers|;
    }
    var sb;
    sb, results := Deliver(ds, x, pairs.value);
    if sb.Failure? {
      return Failure(sb.error), cols, assignments, results;
    }
    TrimLines(assignments, results);
    out := Success(Trim(sb.value));
  }

  /** The loop of `plan`: every pair searched and its line appended. */
  method Deliver(ds: LegacyDeliverySearch, x: Strategy, assignments: seq<Assignment>)
    returns (sb: Result<string>, ghost results: seq<SearchResult<Action>>)
    requires PairsInRange(assignments, |ds.trucks|, |ds.customers|)
    modifies ds, ds.h1
    ensures sb.Success? <==> (x == BF || assignments == []) && Countable(results)
    ensures Delivered(ds.traffic, ds.tunnels, ds.trucks, ds.customers, assignments, results)
    ensures sb.Success? ==> |results| == |assignments| && sb.value == DeliveryPlan.Report(Lines(assignments, results))
  {
    var text := "";
    results := [];
    ghost var lines: seq<string> := [];
    for k := 0 to |assignments|
      invariant |results| == k && (k > 0 ==> x == BF) && Countable(results)
      invariant Delivered(ds.traffic, ds.tunnels, ds.trucks, ds.customers, assignments, results)
      invariant lines == Lines(assignments, results) && text == DeliveryPlan.Report(lines)
    {
      var step;
      ghost var result;
      step, result := DeliverPair(ds, x, assignments[k].truck, assignments[k].customer, text);
      if step.Failure? {
        if x == BF {
          DeliveredStep(ds.traffic, ds.tunnels, ds.trucks, ds.customers, assignments, results, result);
          results := results + [result];
        }
        return Failure(step.error), results;
      }
      DeliveredStep(ds.traffic, ds.tunnels, ds.trucks, ds.customers, assignments, results, result);
      LinesStep(assignments, results, result);
      if result.cost.Fin? {
        ghost var line := Line(assignments[k].truck, assignments[k].customer, result);
        DeliveryPlan.ReportStep(lines, line);
        lines := lines + [line];
      }
      results := results + [result];
      text := step.value;
    }
    sb := Success(text);
  }

  /** One turn of the loop of `plan`: search pair `(truckIdx, custIdx)` from
      the truck's first position and append the rebuilt line of a found path. */
  method DeliverPair(ds: LegacyDeliverySearch, x: Strategy, truckIdx: nat, custIdx: nat, sb: string)
    returns (r: Result<string>, ghost result: SearchResult<Action>)
    requires truckIdx < |ds.trucks| && custIdx < |ds.customers|
    modifies ds, ds.h1
    ensures r.Success? <==> x == BF && (result.cost.Inf? || InInt32(result.nodesExpanded))
    ensures x == BF ==> Searched(1, ds.traffic, ds.tunnels, ds.trucks[truckIdx], ds.customers[custIdx], result)
    ensures r.Success? ==>
      r.value == if result.cost.Fin? then sb + Line(truckIdx, custIdx, result) + "\n" else sb
  {
    var start := ds.trucks[truckIdx];
    var goal := ds.customers[custIdx];
    var found, pathStr := Path(ds, start, goal, x);
    result := if found.Success? then found.value else SearchResult([], Inf, 0);
    if found.Failure? {
      return Failure(found.error), result;
    }
    assert Searched(0, ds.traffic, ds.tunnels, start, goal, result);
    LineOfPath(truckIdx, custIdx, result);
    var line := LineOf(truckIdx, custIdx, pathStr);
    if line.Failure? {
      return Failure(line.error), result;
    }
    r := Success(if line.value.Some? then sb + line.value.value + "\n" else sb);
  }

  /** `solve`: read the strategy code, parse the input, and plan. An
      unknown code or a malformed input is a failure; otherwise the plan
      is that of the parsed grid. */
  method Solve(initial: string, trafficStr: string, strategy: string)
    returns (r: Result<string>, ghost cols: seq<seq<Cost>>, ghost assignments: seq<Assignment>,
             ghost results: seq<SearchResult<Action>>)
    ensures r.Success? <==>
      && Strategies.FromString(strategy).Success? && LegacyDelivery.ConfigOf(initial, trafficStr).Success?
      && (|LegacyDelivery.ConfigOf(initial, trafficStr).value.trucks| == 0 || |LegacyDelivery.ConfigOf(initial, trafficStr).value.customers| == 0
          || Strategies.FromString(strategy).value == BF)
      && Countable(results)
    ensures r.Success? ==> var c := LegacyDelivery.ConfigOf(initial, trafficStr).value;
      && ColumnsRead(c.traffic, c.tunnels, c.trucks, c.customers, cols)
      && assignments == BackendPlanner.GreedyPairs(cols, |c.customers|)
      && |results| == |assignments| && Delivered(c.traffic, c.tunnels, c.trucks, c.customers, assignments, results)
      && r.value == Join(Lines(assignments, results), '\n')
  {
    cols, assignments, results := [], [], [];
    var x := Strategies.FromString(strategy);
    if x.Failure? {
      return Failure(x.error), cols, assignments, results;
    }
    var ds := FromStrings(initial, trafficStr);
    if ds.Failure? {
      return Failure(ds.error), cols, assignments, results;
    }
    r, cols, assignments, results := Plan(ds.value, x.value);
  }
}
