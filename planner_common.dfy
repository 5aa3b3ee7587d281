/** What the assignment planners of backend/src/main/java/code/DeliveryPlanner.java
    and src/code/DeliveryPlanner.java share, written the same in both
    files: reading a cost back from a path text (`parseCost`), the running
    minimum of `findBestTruck`, and the counts of `getStats`. */
module PlannerCommon {
  import opened Wrappers
  import opened Costs
  import opened JavaText
  import opened SearchModel
  import opened Actions
  import opened Delivery

  /** A `(truckIndex, customerIndex)` pair of the assignment list. */
  datatype Assignment = Assignment(truck: nat, customer: nat)

  // ------------------------------------------------------------------
  // parseCost

  /** `Double.parseDouble` on what a path text can hold in its cost field:
      after trimming, an optional sign and decimal digits, or `Infinity`;
      `None` is the `NumberFormatException`. */
  function ParseDouble(s: string): Option<Cost> {
    var t := Trim(s);
    if t == "Infinity" || t == "+Infinity" then Some(Inf)
    else if |t| > 0 && (t[0] == '-' || t[0] == '+') then
      var d := t[1..];
      if d != [] && AllDigits(d) then
        Some(Fin(if t[0] == '-' then -(DigitsValue(d) as int) else DigitsValue(d)))
      else None
    else if t != [] && AllDigits(t) then Some(Fin(DigitsValue(t)))
    else None
  }

  /** `parseCost`: +infinity for an empty text, a `"no path"` text, a text
      of fewer than two `;`-fields, or a cost field that does not parse;
      otherwise the cost field. (A `null` text has no counterpart here.) */
  function ParseCost(s: string): Cost {
    if s == [] || StartsWith(s, "no path") then Inf
    else
      var parts := Split(s, ';');
      if |parts| < 2 then Inf
      else
        match ParseDouble(parts[1])
        case None => Inf
        case Some(c) => c
  }

  /** The `(int)` cast of a cost that is then read back as a double:
      +infinity stays, a finite cost saturates at the 32-bit range, and the
      cast keeps the order of costs (`CastMonotone`). */
  function CastCost(c: Cost): (r: Cost)
    ensures r.Inf? <==> c.Inf?
    ensures r.Fin? ==> InInt32(r.v) && (InInt32(c.v) ==> r.v == c.v)
  {
    if c.Inf? then Inf else Fin(SaturateInt(c.v))
  }

  /** The cast keeps the order of costs. */
  lemma CastMonotone(c: Cost, d: Cost)
    requires Le(c, d)
    ensures Le(CastCost(c), CastCost(d))
  {
  }

  /** The cost written into a path text: +infinity, or the cost cast to `int`. */
  function TextCost(r: SearchResult<Action>): (c: Cost)
    ensures c.Inf? <==> r.cost.Inf?
    ensures c.Fin? ==> c.v == SaturateInt(r.cost.v)
  {
    if r.cost.Inf? then Inf else Fin(SaturateInt(r.cost.v))
  }

  /** A string without characters up to U+0020 is its own trim. */
  lemma TrimNoSpace(s: string)
    requires forall i :: 0 <= i < |s| ==> !IsSpace(s[i])
    ensures Trim(s) == s
  {
    assert TrimStart(s) == s;
  }

  /** `Integer.toString` writes no character up to U+0020. */
  lemma IntToStringNoSpace(v: int)
    ensures forall i :: 0 <= i < |IntToString(v)| ==> !IsSpace(IntToString(v)[i])
  {
    var t := IntToString(v);
    forall i | 0 <= i < |t|
      ensures !IsSpace(t[i])
    {
      if v < 0 && i > 0 {
        assert t[i] == NatDigits(-v)[i - 1];
      }
    }
  }

  /** An unsigned digit string parses to its value. */
  lemma ParseDoubleDigits(d: string)
    requires d != [] && AllDigits(d)
    ensures ParseDouble(d) == Some(Fin(DigitsValue(d)))
  {
    TrimNoSpace(d);
    assert IsDigit(d[0]);
    assert d != "Infinity" && d != "+Infinity" by {
      assert d[0] != 'I' && d[0] != '+';
    }
  }

  /** A negated digit string parses to its negated value. */
  lemma ParseDoubleNegative(d: string)
    requires d != [] && AllDigits(d)
    ensures ParseDouble("-" + d) == Some(Fin(-(DigitsValue(d) as int)))
  {
    var t := "-" + d;
    assert t[1..] == d;
    forall i | 0 <= i < |t|
      ensures !IsSpace(t[i])
    {
      if i > 0 {
        assert t[i] == d[i - 1];
        assert IsDigit(d[i - 1]);
      }
    }
    TrimNoSpace(t);
    assert Trim(t) == t;
    assert t[0] == '-';
    assert t != "Infinity" && t != "+Infinity" by {
      assert t[0] != "Infinity"[0] && t[0] != "+Infinity"[0];
    }
  }

  /** `Double.parseDouble(Integer.toString(v)) == v`. */
  lemma ParseDoubleOfInt(v: int)
    ensures ParseDouble(IntToString(v)) == Some(Fin(v))
  {
    if v < 0 {
      DigitsRoundTrip(-v);
      ParseDoubleNegative(NatDigits(-v));
    } else {
      DigitsRoundTrip(v);
      ParseDoubleDigits(NatDigits(v));
    }
  }

  /** A finite path text holds no space, so it does not start with `"no path"`. */
  lemma FinitePathText(r: SearchResult<Action>)
    requires r.cost.Fin?
    ensures PathText(r) != [] && !StartsWith(PathText(r), "no path")
  {
    NamesAvoid(r.actions, ' ');
    JoinAvoids(Names(r.actions), ',', ' ');
    IntToStringHasNo(SaturateInt(r.cost.v), ' ');
    IntToStringHasNo(r.nodesExpanded, ' ');
    assert ' ' !in PathText(r);
    assert "no path"[2] == ' ';
  }

  /** Reading the cost back from the text `path` writes gives the cost as
      written: +infinity for `"no path;0;0"`, else the cost cast to `int`. */
  lemma ParseCostOfPath(r: SearchResult<Action>)
    ensures ParseCost(PathText(r)) == TextCost(r)
  {
    if r.cost.Fin? {
      FinitePathText(r);
      PathFields(r);
      ParseDoubleOfInt(SaturateInt(r.cost.v));
      ParseCostCases(PathText(r), SaturateInt(r.cost.v));
    } else {
      assert StartsWith(NoPathText, "no path");
    }
  }

  /** The cases of `parseCost` that give +infinity without looking at the
      cost field, and a text whose second field is an integer. */
  lemma ParseCostCases(s: string, v: int)
    ensures s == [] ==> ParseCost(s) == Inf
    ensures StartsWith(s, "no path") ==> ParseCost(s) == Inf
    ensures |Split(s, ';')| < 2 ==> ParseCost(s) == Inf
    ensures s != [] && !StartsWith(s, "no path") && |Split(s, ';')| >= 2 && Split(s, ';')[1] == IntToString(v)
      ==> ParseCost(s) == Fin(v)
  {
    ParseDoubleOfInt(v);
  }

  /** A cost field that is no number gives +infinity. */
  lemma ParseCostRejects(s: string, i: int)
    requires |Split(s, ';')| >= 2
    requires 0 <= i < |Split(s, ';')[1]|
    requires var c := Split(s, ';')[1][i]; !IsDigit(c) && !IsSpace(c) && c != '-' && c != '+' && c !in "Infinity"
    ensures ParseCost(s) == Inf
  {
    DoubleRejects(Split(s, ';')[1], i);
  }

  /** A field holding a character that is no digit, sign, space or letter of
      `Infinity` does not parse. */
  lemma DoubleRejects(f: string, i: int)
    requires 0 <= i < |f|
    requires !IsDigit(f[i]) && !IsSpace(f[i]) && f[i] != '-' && f[i] != '+' && f[i] !in "Infinity"
    ensures ParseDouble(f) == None
  {
    var c := f[i];
    var t := Trim(f);
    TrimKeeps(f, i);
    var k :| 0 <= k < |t| && t[k] == c;
    assert c in t;
    assert t != "Infinity" && t != "+Infinity";
    if |t| > 0 && (t[0] == '-' || t[0] == '+') {
      assert k > 0 && t[1..][k - 1] == c;
    } else {
      assert !AllDigits(t);
    }
  }

  /** Trimming keeps every character that is not a space. */
  lemma TrimKeeps(s: string, i: int)
    requires 0 <= i < |s| && !IsSpace(s[i])
    ensures exists k :: 0 <= k < |Trim(s)| && Trim(s)[k] == s[i]
  {
    TrimStartKeeps(s, i);
    var a := TrimStart(s);
    var j := i - (|s| - |a|);
    assert a[j] == s[i];
    TrimEndKeeps(a, j);
    assert Trim(s)[j] == s[i];
  }

  lemma {:induction false} TrimStartKeeps(s: string, i: int)
    requires 0 <= i < |s| && !IsSpace(s[i])
    ensures |s| - |TrimStart(s)| <= i && TrimStart(s)[i - (|s| - |TrimStart(s)|)] == s[i]
    decreases |s|
  {
    if IsSpace(s[0]) {
      TrimStartKeeps(s[1..], i - 1);
    }
  }

  lemma {:induction false} TrimEndKeeps(s: string, i: int)
    requires 0 <= i < |s| && !IsSpace(s[i])
    ensures i < |TrimEnd(s)| && TrimEnd(s)[i] == s[i]
    decreases |s|
  {
    if IsSpace(s[|s| - 1]) {
      TrimEndKeeps(s[..|s| - 1], i);
    }
  }

  // ------------------------------------------------------------------
  // findBestTruck

  /** The entries `t` of the cost matrix for customer `c`: what
      `findBestTruck` scans. */
  function Column(costMatrix: array2<Cost>, c: nat): (col: seq<Cost>)
    requires c < costMatrix.Length1
    reads costMatrix
    ensures |col| == costMatrix.Length0
    ensures forall t :: 0 <= t < |col| ==> col[t] == costMatrix[t, c]
  {
    seq(costMatrix.Length0, t requires 0 <= t < costMatrix.Length0 reads costMatrix => costMatrix[t, c])
  }

  /** `(minCost, bestTruck)` after the first `n` rounds of the loop, which
      takes a cost only when it is strictly below the running minimum. */
  function Scan(col: seq<Cost>, n: nat): (Cost, int)
    requires n <= |col|
    decreases n
  {
    if n == 0 then (Inf, -1)
    else
      var (m, b) := Scan(col, n - 1);
      if Lt(col[n - 1], m) then (col[n - 1], n - 1) else (m, b)
  }

  /** What `findBestTruck` returns: the truck of the scan, or -1 when the
      minimum is still +infinity. */
  function BestTruck(col: seq<Cost>): (best: int)
    ensures -1 <= best < |col|
  {
    ScanFacts(col, |col|);
    var (m, b) := Scan(col, |col|);
    if m == Inf then -1 else b
  }

  /** The scan holds the first minimal entry of the prefix. */
  lemma {:induction false} ScanFacts(col: seq<Cost>, n: nat)
    requires n <= |col|
    ensures Scan(col, n).0.Inf? <==> forall t :: 0 <= t < n ==> col[t].Inf?
    ensures Scan(col, n).0.Fin? ==> 0 <= Scan(col, n).1 < n && col[Scan(col, n).1] == Scan(col, n).0
    ensures forall t :: 0 <= t < n ==> Le(Scan(col, n).0, col[t])
    ensures Scan(col, n).0.Fin? ==> forall t :: 0 <= t < Scan(col, n).1 ==> Lt(Scan(col, n).0, col[t])
    decreases n
  {
    if n > 0 {
      ScanFacts(col, n - 1);
    }
  }

  /** `findBestTruck` is -1 exactly when every cost is +infinity; otherwise
      it is a truck of minimal, finite cost, and every truck before it costs
      strictly more (the lowest index wins ties). */
  lemma BestTruckFacts(col: seq<Cost>)
    ensures BestTruck(col) == -1 <==> forall t :: 0 <= t < |col| ==> col[t].Inf?
    ensures BestTruck(col) != -1 ==> var b := BestTruck(col);
      && 0 <= b < |col| && col[b].Fin?
      && (forall t :: 0 <= t < |col| ==> Le(col[b], col[t]))
      && (forall t :: 0 <= t < b ==> Lt(col[b], col[t]))
  {
    ScanFacts(col, |col|);
  }

  /** `findBestTruck`: the running minimum over the trucks. */
  method FindBestTruck(costMatrix: array2<Cost>, customerIdx: nat) returns (best: int)
    requires customerIdx < costMatrix.Length1
    ensures best == BestTruck(Column(costMatrix, customerIdx))
    ensures -1 <= best < costMatrix.Length0
  {
    ghost var col := Column(costMatrix, customerIdx);
    var minCost := Inf;
    var bestTruck := -1;
    for t := 0 to costMatrix.Length0
      invariant (minCost, bestTruck) == Scan(col, t)
      invariant -1 <= bestTruck < costMatrix.Length0
    {
      if Lt(costMatrix[t, customerIdx], minCost) {
        minCost := costMatrix[t, customerIdx];
        bestTruck := t;
      }
    }
    best := if minCost == Inf then -1 else bestTruck;
  }

  // ------------------------------------------------------------------
  // getStats

  /** `AssignmentStats`. */
  datatype AssignmentStats = AssignmentStats(totalAssignments: nat, totalCost: Cost,
                                             maxDeliveriesPerTruck: nat, minDeliveriesPerTruck: nat)

  /** Every pair names a truck below `trucks` and a customer below `customers`. */
  predicate PairsInRange(assignments: seq<Assignment>, trucks: nat, customers: nat) {
    forall k :: 0 <= k < |assignments| ==> assignments[k].truck < trucks && assignments[k].customer < customers
  }

  /** How many of the first `n` pairs name truck `t`. */
  function CountFor(assignments: seq<Assignment>, n: nat, t: nat): nat
    requires n <= |assignments|
    decreases n
  {
    if n == 0 then 0 else CountFor(assignments, n - 1, t) + (if assignments[n - 1].truck == t then 1 else 0)
  }

  /** `deliveriesPerTruck` after the first `n` pairs. */
  function Deliveries(assignments: seq<Assignment>, n: nat, trucks: nat): (d: seq<nat>)
    requires n <= |assignments|
    ensures |d| == trucks
  {
    seq(trucks, t requires 0 <= t < trucks => CountFor(assignments, n, t))
  }

  /** The sum of a sequence of counts. */
  function Sum(counts: seq<nat>): nat
    decreases |counts|
  {
    if counts == [] then 0 else Sum(counts[..|counts| - 1]) + counts[|counts| - 1]
  }

  /** The largest count, 0 for none. */
  function MaxCount(counts: seq<nat>): nat
    decreases |counts|
  {
    if counts == [] then 0
    else
      var m := MaxCount(counts[..|counts| - 1]);
      if counts[|counts| - 1] > m then counts[|counts| - 1] else m
  }

  /** The smallest non-zero count, `None` for none (the `Integer.MAX_VALUE`
      sentinel of the loop). */
  function MinPositive(counts: seq<nat>): Option<nat>
    decreases |counts|
  {
    if counts == [] then None
    else
      var m := MinPositive(counts[..|counts| - 1]);
      var c := counts[|counts| - 1];
      if c > 0 && (m.None? || c < m.value) then Some(c) else m
  }

  /** `totalCost`: the costs added up from 0 (+infinity absorbs). */
  function SumCosts(costs: seq<Cost>): Cost
    decreases |costs|
  {
    if costs == [] then Fin(0) else Add(SumCosts(costs[..|costs| - 1]), costs[|costs| - 1])
  }

  /** The statistics of a pair list whose costs are `costs`. */
  function StatsOf(assignments: seq<Assignment>, trucks: nat, costs: seq<Cost>): AssignmentStats {
    var d := Deliveries(assignments, |assignments|, trucks);
    AssignmentStats(|assignments|, SumCosts(costs), MaxCount(d), MinPositive(d).GetOr(0))
  }

  /** The statistics of a non-empty list whose trucks are in range: the
      count is the list size and the per-truck counts add up to it; the
      maximum is the largest count and the minimum the smallest non-zero
      one, so `1 <= min <= max`; the total is +infinity exactly when some
      cost is, and is otherwise not negative when no cost is. */
  lemma StatsOfFacts(assignments: seq<Assignment>, trucks: nat, costs: seq<Cost>)
    requires forall k :: 0 <= k < |assignments| ==> assignments[k].truck < trucks
    ensures var st := StatsOf(assignments, trucks, costs);
      var d := Deliveries(assignments, |assignments|, trucks);
      && st.totalAssignments == |assignments| == Sum(d)
      && (forall t :: 0 <= t < trucks ==> d[t] <= st.maxDeliveriesPerTruck)
      && (trucks > 0 ==> exists t :: 0 <= t < trucks && d[t] == st.maxDeliveriesPerTruck)
      && (forall t :: 0 <= t < trucks && d[t] > 0 ==> st.minDeliveriesPerTruck <= d[t])
      && (assignments != [] ==> 1 <= st.minDeliveriesPerTruck <= st.maxDeliveriesPerTruck)
      && (assignments != [] ==> exists t :: 0 <= t < trucks && d[t] == st.minDeliveriesPerTruck)
      && (st.totalCost.Inf? <==> exists k :: 0 <= k < |costs| && costs[k].Inf?)
      && ((forall k :: 0 <= k < |costs| ==> NonNegative(costs[k])) ==> NonNegative(st.totalCost))
  {
    var d := Deliveries(assignments, |assignments|, trucks);
    CountsSum(assignments, |assignments|, trucks);
    MaxCountFacts(d);
    MinPositiveFacts(d);
    SumCostsFacts(costs);
    if assignments != [] {
      if forall t :: 0 <= t < trucks ==> d[t] == 0 {
        SumZero(d);
        assert false;
      }
      var m := MinPositive(d).value;
      var t :| 0 <= t < |d| && d[t] == m;
      assert d[t] <= MaxCount(d);
    }
  }

  /** The empty list has the statistics `(0, 0, 0, 0)`. */
  lemma StatsOfEmpty(trucks: nat)
    ensures StatsOf([], trucks, []) == AssignmentStats(0, Fin(0), 0, 0)
  {
    var d := Deliveries([], 0, trucks);
    MaxCountZero(d);
    MinPositiveZero(d);
  }

  lemma {:induction false} MaxCountZero(counts: seq<nat>)
    requires forall t :: 0 <= t < |counts| ==> counts[t] == 0
    ensures MaxCount(counts) == 0
    decreases |counts|
  {
    if counts != [] {
      MaxCountZero(counts[..|counts| - 1]);
    }
  }

  lemma {:induction false} MinPositiveZero(counts: seq<nat>)
    requires forall t :: 0 <= t < |counts| ==> counts[t] == 0
    ensures MinPositive(counts) == None
    decreases |counts|
  {
    if counts != [] {
      MinPositiveZero(counts[..|counts| - 1]);
    }
  }

  /** The per-truck counts add up to the number of pairs. */
  lemma {:induction false} CountsSum(assignments: seq<Assignment>, n: nat, trucks: nat)
    requires n <= |assignments|
    requires forall k :: 0 <= k < |assignments| ==> assignments[k].truck < trucks
    ensures Sum(Deliveries(assignments, n, trucks)) == n
    decreases n
  {
    if n > 0 {
      CountsSum(assignments, n - 1, trucks);
      var t := assignments[n - 1].truck;
      var a := Deliveries(assignments, n - 1, trucks);
      var b := Deliveries(assignments, n, trucks);
      assert forall i :: 0 <= i < trucks ==> b[i] == a[i] + (if t == i then 1 else 0);
      SumStep(a, b, t);
    } else {
      SumZero(Deliveries(assignments, 0, trucks));
    }
  }

  lemma {:induction false} SumZero(counts: seq<nat>)
    requires forall t :: 0 <= t < |counts| ==> counts[t] == 0
    ensures Sum(counts) == 0
    decreases |counts|
  {
    if counts != [] {
      SumZero(counts[..|counts| - 1]);
    }
  }

  /** Adding one to entry `t` adds one to the sum. */
  lemma {:induction false} SumStep(a: seq<nat>, b: seq<nat>, t: nat)
    requires |a| == |b| && t < |a|
    requires b[t] == a[t] + 1 && forall i :: 0 <= i < |a| && i != t ==> b[i] == a[i]
    ensures Sum(b) == Sum(a) + 1
    decreases |a|
  {
    var k := |a| - 1;
    if t == k {
      assert a[..k] == b[..k];
    } else {
      SumStep(a[..k], b[..k], t);
    }
  }

  /** The largest count is one of the counts and at least every count. */
  lemma {:induction false} MaxCountFacts(counts: seq<nat>)
    ensures forall t :: 0 <= t < |counts| ==> counts[t] <= MaxCount(counts)
    ensures counts != [] ==> exists t :: 0 <= t < |counts| && counts[t] == MaxCount(counts)
    decreases |counts|
  {
    if counts != [] {
      var init := counts[..|counts| - 1];
      MaxCountFacts(init);
      assert forall t :: 0 <= t < |init| ==> init[t] == counts[t];
      if init != [] && MaxCount(counts) == MaxCount(init) {
        var t :| 0 <= t < |init| && init[t] == MaxCount(init);
        assert counts[t] == MaxCount(counts);
      } else {
        assert counts[|counts| - 1] == MaxCount(counts);
      }
    }
  }

  /** The smallest non-zero count is one of the counts and at most every
      non-zero count; there is none exactly when all counts are zero. */
  lemma {:induction false} MinPositiveFacts(counts: seq<nat>)
    ensures MinPositive(counts).None? <==> forall t :: 0 <= t < |counts| ==> counts[t] == 0
    ensures MinPositive(counts).Some? ==> var m := MinPositive(counts).value;
      && m > 0
      && (exists t :: 0 <= t < |counts| && counts[t] == m)
      && (forall t :: 0 <= t < |counts| && counts[t] > 0 ==> m <= counts[t])
    decreases |counts|
  {
    if counts != [] {
      var init := counts[..|counts| - 1];
      MinPositiveFacts(init);
      assert forall t :: 0 <= t < |init| ==> init[t] == counts[t];
      if MinPositive(counts) == MinPositive(init) && MinPositive(init).Some? {
        var t :| 0 <= t < |init| && init[t] == MinPositive(init).value;
        assert counts[t] == MinPositive(counts).value;
      }
    }
  }

  /** The sum of the costs is +infinity exactly when one of them is, and is
      otherwise the sum of their values. */
  lemma {:induction false} SumCostsFacts(costs: seq<Cost>)
    ensures SumCosts(costs).Inf? <==> exists k :: 0 <= k < |costs| && costs[k].Inf?
    ensures (forall k :: 0 <= k < |costs| ==> NonNegative(costs[k])) ==> NonNegative(SumCosts(costs))
    decreases |costs|
  {
    if costs != [] {
      var init := costs[..|costs| - 1];
      SumCostsFacts(init);
      assert forall k :: 0 <= k < |init| ==> init[k] == costs[k];
      if SumCosts(init).Inf? {
        var k :| 0 <= k < |init| && init[k].Inf?;
        assert costs[k].Inf?;
      }
    }
  }

  /** The `getStats` loop over `deliveriesPerTruck`: the largest count and
      the smallest non-zero one, 0 when every count is zero. */
  method CountExtremes(deliveriesPerTruck: array<nat>) returns (maxDeliveries: nat, minDeliveries: nat)
    ensures maxDeliveries == MaxCount(deliveriesPerTruck[..])
    ensures minDeliveries == MinPositive(deliveriesPerTruck[..]).GetOr(0)
  {
    maxDeliveries := 0;
    var least: Option<nat> := None;
    for i := 0 to deliveriesPerTruck.Length
      invariant maxDeliveries == MaxCount(deliveriesPerTruck[..i])
      invariant least == MinPositive(deliveriesPerTruck[..i])
    {
      assert deliveriesPerTruck[..i + 1][..i] == deliveriesPerTruck[..i];
      var count := deliveriesPerTruck[i];
      if count > maxDeliveries {
        maxDeliveries := count;
      }
      if count > 0 && (least.None? || count < least.value) {
        least := Some(count);
      }
    }
    assert deliveriesPerTruck[..deliveriesPerTruck.Length] == deliveriesPerTruck[..];
    minDeliveries := least.GetOr(0);
  }
}
