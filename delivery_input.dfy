/** The text input of backend/src/main/java/code/DeliverySearch.java
    (`fromStrings`): the `m;n;P;S;customers;tunnels` description of the grid
    and the `x1,y1,x2,y2,c;...` list of directed traffic levels. */
module DeliveryInput {
  import opened Wrappers
  import opened JavaText
  import opened Grid
  import opened Tunnels

  /** The directed traffic levels: `traffic[from][to]`. */
  type Traffic = map<State, map<State, int>>

  /** What an uncaught `NumberFormatException` (or a missing field) ends in. */
  const BadInput := "malformed input"

  /** Every field `lo <= i < hi` is an `int` for `Integer.parseInt`. */
  predicate AllParse(fields: seq<string>, lo: nat, hi: nat)
    requires lo <= hi <= |fields|
  {
    forall i :: lo <= i < hi ==> ParseInt(fields[i]).Success?
  }

  /** `k` complete pairs of fields fit in `n` fields, and no more. */
  lemma PairCount(n: nat, k: nat)
    requires 2 * k <= n < 2 * k + 2
    ensures n / 2 == k
  {
  }

  /** `k` complete groups of four fields fit in `n` fields, and no more. */
  lemma QuadCount(n: nat, k: nat)
    requires 4 * k <= n < 4 * k + 4
    ensures n / 4 == k
  {
  }

  /** A field index is the first or the second of its pair. */
  lemma Halve(i: nat) returns (j: nat)
    ensures i == 2 * j || i == 2 * j + 1
  {
    j := i / 2;
  }

  // ------------------------------------------------------------------
  // Customers

  /** The customers of the `x1,y1,x2,y2,...` field: one per complete pair
      of fields, a trailing odd field ignored; a field of a pair that is
      not an integer is an error. */
  function CustomersOf(fields: seq<string>): (r: Result<seq<State>>)
  {
    var k := |fields| / 2;
    if AllParse(fields, 0, 2 * k) then
      Success(seq(k, j requires 0 <= j < k => State(ParseInt(fields[2 * j]).value, ParseInt(fields[2 * j + 1]).value)))
    else
      Failure(BadInput)
  }

  /** The customer loop: `for (i = 0; i + 1 < custStr.length; i += 2)`. */
  method ParseCustomers(fields: seq<string>) returns (r: Result<seq<State>>)
    ensures r == CustomersOf(fields)
  {
    var customers: seq<State> := [];
    var i := 0;
    ghost var k := 0;
    while i + 1 < |fields|
      invariant i == 2 * k && i <= |fields|
      invariant AllParse(fields, 0, i)
      invariant |customers| == k
      invariant forall j :: 0 <= j < k ==>
        customers[j] == State(ParseInt(fields[2 * j]).value, ParseInt(fields[2 * j + 1]).value)
    {
      var x := ParseInt(fields[i]);
      var y := ParseInt(fields[i + 1]);
      if x.Failure? || y.Failure? {
        PairCount(|fields|, |fields| / 2);
        return Failure(BadInput);
      }
      customers := customers + [State(x.value, y.value)];
      i := i + 2;
      k := k + 1;
    }
    PairCount(|fields|, k);
    r := Success(customers);
    assert CustomersOf(fields).value == customers;
  }

  /** The fields that write a list of states as `x1,y1,x2,y2,...`. */
  function CoordinateFields(cs: seq<State>): (r: seq<string>)
    ensures |r| == 2 * |cs|
    decreases |cs|
  {
    if cs == [] then [] else CoordinateFields(cs[..|cs| - 1]) + [IntToString(cs[|cs| - 1].x), IntToString(cs[|cs| - 1].y)]
  }

  lemma {:induction false} CoordinateFieldsAt(cs: seq<State>, j: nat)
    requires j < |cs|
    ensures CoordinateFields(cs)[2 * j] == IntToString(cs[j].x)
    ensures CoordinateFields(cs)[2 * j + 1] == IntToString(cs[j].y)
    decreases |cs|
  {
    if j < |cs| - 1 {
      CoordinateFieldsAt(cs[..|cs| - 1], j);
    }
  }

  predicate InRange(cs: seq<State>) {
    forall j :: 0 <= j < |cs| ==> InInt32(cs[j].x) && InInt32(cs[j].y)
  }

  /** The two fields of state `j` parse back to its coordinates. */
  lemma CoordinatesParse(cs: seq<State>, j: nat)
    requires j < |cs| && InInt32(cs[j].x) && InInt32(cs[j].y)
    ensures ParseInt(CoordinateFields(cs)[2 * j]) == Success(cs[j].x)
    ensures ParseInt(CoordinateFields(cs)[2 * j + 1]) == Success(cs[j].y)
  {
    CoordinateFieldsAt(cs, j);
    IntRoundTrip(cs[j].x);
    IntRoundTrip(cs[j].y);
  }

  /** Writing states with `Integer.toString` and parsing them back gives them back. */
  lemma CustomersRoundTrip(cs: seq<State>)
    requires InRange(cs)
    ensures CustomersOf(CoordinateFields(cs)) == Success(cs)
  {
    var f := CoordinateFields(cs);
    forall i | 0 <= i < |f|
      ensures ParseInt(f[i]).Success?
    {
      var j := Halve(i);
      CoordinatesParse(cs, j);
    }
    PairCount(|f|, |cs|);
    assert AllParse(f, 0, 2 * |cs|);
    var r := CustomersOf(f).value;
    assert |r| == |cs|;
    forall j | 0 <= j < |cs|
      ensures r[j] == cs[j]
    {
      CoordinatesParse(cs, j);
    }
    assert r == cs;
  }

  /** The same, through the comma-separated text of the field. */
  lemma CustomersTextRoundTrip(cs: seq<State>)
    requires cs != [] && InRange(cs)
    ensures CustomersOf(Split(Join(CoordinateFields(cs), ','), ',')) == Success(cs)
  {
    var f := CoordinateFields(cs);
    forall i | 0 <= i < |f|
      ensures ',' !in f[i]
    {
      var j := Halve(i);
      CoordinateFieldsAt(cs, j);
      IntToStringHasNo(cs[j].x, ',');
      IntToStringHasNo(cs[j].y, ',');
    }
    CoordinateFieldsAt(cs, |cs| - 1);
    assert f[|f| - 1] != "";
    SplitJoin(f, ',');
    CustomersRoundTrip(cs);
  }

  // ------------------------------------------------------------------
  // Stores

  /** The stores implied by `S`: the first `min(S, 3)` of (0,0), (m-1,n-1)
      and (m-1,0). */
  function StoresOf(m: int, n: int, S: int): (r: seq<State>)
    ensures |r| == if S <= 0 then 0 else if S >= 3 then 3 else S
    ensures r <= [State(0, 0), State(m - 1, n - 1), State(m - 1, 0)]
  {
    var a := if S >= 1 then [State(0, 0)] else [];
    var b := if S >= 2 then [State(m - 1, n - 1)] else [];
    var c := if S >= 3 then [State(m - 1, 0)] else [];
    a + b + c
  }

  // ------------------------------------------------------------------
  // Tunnels

  /** The tunnel of the group of four fields `j`, if all four are integers. */
  function TunnelAt(fields: seq<string>, j: nat): Option<Tunnel>
    requires 4 * j + 3 < |fields|
  {
    if AllParse(fields, 4 * j, 4 * j + 4) then
      Some(Tunnel(State(ParseInt(fields[4 * j]).value, ParseInt(fields[4 * j + 1]).value),
                  State(ParseInt(fields[4 * j + 2]).value, ParseInt(fields[4 * j + 3]).value)))
    else
      None
  }

  /** The tunnels of the first `k` groups of four fields: a group that does
      not parse is skipped (the Java code catches the exception and warns). */
  function TunnelsOf(fields: seq<string>, k: nat): seq<Tunnel>
    requires 4 * k <= |fields|
    decreases k
  {
    if k == 0 then []
    else
      var prev := TunnelsOf(fields, k - 1);
      match TunnelAt(fields, k - 1)
      case None => prev
      case Some(t) => prev + [t]
  }

  /** The tunnel loop: `for (i = 0; i + 3 < tStr.length; i += 4)`. */
  method ParseTunnels(fields: seq<string>) returns (ts: seq<Tunnel>)
    ensures ts == TunnelsOf(fields, |fields| / 4)
  {
    ts := [];
    var i := 0;
    ghost var k := 0;
    while i + 3 < |fields|
      invariant i == 4 * k && i <= |fields|
      invariant ts == TunnelsOf(fields, k)
    {
      var t := ReadTunnel(fields, i, k);
      if t.Some? {
        ts := ts + [t.value];
      }
      i := i + 4;
      k := k + 1;
    }
    QuadCount(|fields|, k);
  }

  /** One turn of the tunnel loop: the four integers at `i`, or nothing
      when one of them does not parse. */
  method ReadTunnel(fields: seq<string>, i: nat, ghost j: nat) returns (t: Option<Tunnel>)
    requires i == 4 * j && i + 3 < |fields|
    ensures t == TunnelAt(fields, j)
  {
    var x1 := ParseInt(fields[i]);
    var y1 := ParseInt(fields[i + 1]);
    var x2 := ParseInt(fields[i + 2]);
    var y2 := ParseInt(fields[i + 3]);
    if x1.Success? && y1.Success? && x2.Success? && y2.Success? {
      assert AllParse(fields, 4 * j, 4 * j + 4);
      t := Some(Tunnel(State(x1.value, y1.value), State(x2.value, y2.value)));
    } else {
      assert !AllParse(fields, 4 * j, 4 * j + 4);
      t := None;
    }
  }

  /** At most one tunnel per group ... */
  lemma {:induction false} TunnelsAtMost(fields: seq<string>, k: nat)
    requires 4 * k <= |fields|
    ensures |TunnelsOf(fields, k)| <= k
    decreases k
  {
    if k > 0 {
      TunnelsAtMost(fields, k - 1);
    }
  }

  /** ... and every tunnel comes from a group. */
  lemma {:induction false} TunnelsFromGroups(fields: seq<string>, k: nat, i: nat)
    requires 4 * k <= |fields| && i < |TunnelsOf(fields, k)|
    ensures exists j :: 0 <= j < k && TunnelAt(fields, j) == Some(TunnelsOf(fields, k)[i])
    decreases k
  {
    var prev := TunnelsOf(fields, k - 1);
    var t := TunnelsOf(fields, k)[i];
    if i < |prev| {
      assert t == prev[i];
      TunnelsFromGroups(fields, k - 1, i);
      var j :| 0 <= j < k - 1 && TunnelAt(fields, j) == Some(prev[i]);
      assert 0 <= j < k;
    } else {
      assert TunnelAt(fields, k - 1) == Some(t);
    }
  }

  /** When every group parses, the tunnels are the groups, in order. */
  lemma {:induction false} TunnelsAllGroups(fields: seq<string>, k: nat)
    requires 4 * k <= |fields| && AllParse(fields, 0, 4 * k)
    ensures |TunnelsOf(fields, k)| == k
    ensures forall j :: 0 <= j < k ==> TunnelAt(fields, j) == Some(TunnelsOf(fields, k)[j])
    decreases k
  {
    if k > 0 {
      TunnelsAllGroups(fields, k - 1);
      assert TunnelAt(fields, k - 1).Some?;
    }
  }

  // ------------------------------------------------------------------
  // Traffic

  /** One traffic entry `x1,y1,x2,y2,c`: `None` for one of fewer than five
      fields, which is skipped; an entry whose first five fields are not
      all integers is an error. Fields past the fifth are ignored. */
  function EdgeOf(entry: string): Result<Option<(State, State, int)>> {
    var e := Split(entry, ',');
    if |e| < 5 then Success(None)
    else if AllParse(e, 0, 5) then
      Success(Some((State(ParseInt(e[0]).value, ParseInt(e[1]).value),
                    State(ParseInt(e[2]).value, ParseInt(e[3]).value),
                    ParseInt(e[4]).value)))
    else Failure(BadInput)
  }

  /** `putIfAbsent(from, new HashMap())` then `get(from).put(to, cost)`. */
  function Put(t: Traffic, from: State, to: State, c: int): (r: Traffic)
    ensures from in r && to in r[from] && r[from][to] == c
    ensures forall s :: s in r <==> s in t || s == from
    ensures forall s, u :: s in t && u in t[s] && (s, u) != (from, to) ==> u in r[s] && r[s][u] == t[s][u]
    ensures forall s, u :: s in r && u in r[s] && (s, u) != (from, to) ==> s in t && u in t[s]
  {
    t[from := (if from in t then t[from] else map[])[to := c]]
  }

  /** The traffic of the first `k` entries. */
  function TrafficOf(entries: seq<string>, k: nat): Result<Traffic>
    requires k <= |entries|
    decreases k
  {
    if k == 0 then Success(map[])
    else
      match TrafficOf(entries, k - 1)
      case Failure(e) => Failure(e)
      case Success(t) =>
        match EdgeOf(entries[k - 1])
        case Failure(e) => Failure(e)
        case Success(None) => Success(t)
        case Success(Some(edge)) => Success(Put(t, edge.0, edge.1, edge.2))
  }

  /** The body of the traffic loop for one entry: skip it when it has
      fewer than five fields, else parse them. */
  method ParseEdge(entry: string) returns (r: Result<Option<(State, State, int)>>)
    ensures r == EdgeOf(entry)
  {
    var e := Split(entry, ',');
    if |e| < 5 {
      return Success(None);
    }
    var x1 := ParseInt(e[0]);
    var y1 := ParseInt(e[1]);
    var x2 := ParseInt(e[2]);
    var y2 := ParseInt(e[3]);
    var c := ParseInt(e[4]);
    if x1.Failure? || y1.Failure? || x2.Failure? || y2.Failure? || c.Failure? {
      assert !AllParse(e, 0, 5);
      return Failure(BadInput);
    }
    assert AllParse(e, 0, 5);
    return Success(Some((State(x1.value, y1.value), State(x2.value, y2.value), c.value)));
  }

  /** The traffic loop over `trafficStr.split(";")`. */
  method ParseTraffic(entries: seq<string>) returns (r: Result<Traffic>)
    ensures r == TrafficOf(entries, |entries|)
  {
    var traffic: Traffic := map[];
    for i := 0 to |entries|
      invariant TrafficOf(entries, i) == Success(traffic)
    {
      var edge := ParseEdge(entries[i]);
      if edge.Failure? {
        TrafficFailureStays(entries, i + 1, |entries|);
        return Failure(BadInput);
      }
      if edge.value.Some? {
        var (from, to, c) := edge.value.value;
        var inner := if from in traffic then traffic[from] else map[];
        traffic := traffic[from := inner[to := c]];
      }
    }
    return Success(traffic);
  }

  /** Once an entry is malformed, the whole input is. */
  lemma {:induction false} TrafficFailureStays(entries: seq<string>, k: nat, k': nat)
    requires k <= k' <= |entries| && TrafficOf(entries, k).Failure?
    ensures TrafficOf(entries, k') == Failure(BadInput)
    decreases k'
  {
    if k' > k {
      TrafficFailureStays(entries, k, k' - 1);
    } else {
      TrafficFailureIsBad(entries, k);
    }
  }

  lemma {:induction false} TrafficFailureIsBad(entries: seq<string>, k: nat)
    requires k <= |entries| && TrafficOf(entries, k).Failure?
    ensures TrafficOf(entries, k) == Failure(BadInput)
    decreases k
  {
    if TrafficOf(entries, k - 1).Failure? {
      TrafficFailureIsBad(entries, k - 1);
    }
  }

  /** Entry `i` sets the level from `from` to `to`. */
  predicate Sets(entries: seq<string>, i: nat, from: State, to: State)
    requires i < |entries|
  {
    EdgeOf(entries[i]).Success? && EdgeOf(entries[i]).value.Some?
    && EdgeOf(entries[i]).value.value.0 == from && EdgeOf(entries[i]).value.value.1 == to
  }

  /** The last entry that sets a pair decides its level (zero levels are kept) ... */
  lemma {:induction false} TrafficLastWins(entries: seq<string>, k: nat, i: nat, from: State, to: State)
    requires i < k <= |entries| && TrafficOf(entries, k).Success?
    requires Sets(entries, i, from, to)
    requires forall j :: i < j < k ==> !Sets(entries, j, from, to)
    ensures from in TrafficOf(entries, k).value && to in TrafficOf(entries, k).value[from]
    ensures TrafficOf(entries, k).value[from][to] == EdgeOf(entries[i]).value.value.2
    decreases k
  {
    if i < k - 1 {
      TrafficLastWins(entries, k - 1, i, from, to);
      assert !Sets(entries, k - 1, from, to);
    }
  }

  /** ... and a pair has a level only if some entry sets it. */
  lemma {:induction false} TrafficFromEntries(entries: seq<string>, k: nat, from: State, to: State)
    requires k <= |entries| && TrafficOf(entries, k).Success?
    requires from in TrafficOf(entries, k).value && to in TrafficOf(entries, k).value[from]
    ensures exists i :: 0 <= i < k && Sets(entries, i, from, to)
    decreases k
  {
    var t := TrafficOf(entries, k - 1).value;
    if Sets(entries, k - 1, from, to) {
    } else {
      assert from in t && to in t[from];
      TrafficFromEntries(entries, k - 1, from, to);
      var i :| 0 <= i < k - 1 && Sets(entries, i, from, to);
      assert 0 <= i < k;
    }
  }

  /** An entry of fewer than five fields changes nothing. */
  lemma ShortEntrySkipped(entries: seq<string>, k: nat)
    requires k < |entries| && |Split(entries[k], ',')| < 5
    ensures TrafficOf(entries, k + 1) == TrafficOf(entries, k)
  {
  }

  // ------------------------------------------------------------------
  // The whole input

  datatype Config = Config(m: int, n: int, traffic: Traffic, tunnels: seq<Tunnel>,
                           stores: seq<State>, customers: seq<State>, trucks: seq<State>)

  /** `fromStrings`: `m`, `n`, `P` and `S` must be integers (`P` is parsed
      and then unused), the customers and tunnels fields may be absent or
      empty, and the trucks start as a copy of the stores. */
  function ConfigOf(initial: string, trafficStr: string): (r: Result<Config>)
    ensures r.Success? ==> r.value.trucks == r.value.stores && |r.value.stores| <= 3
  {
    var parts := Split(initial, ';');
    if |parts| < 4 || !AllParse(parts, 0, 4) then Failure(BadInput)
    else
      var m := ParseInt(parts[0]).value;
      var n := ParseInt(parts[1]).value;
      var S := ParseInt(parts[3]).value;
      var customers := if |parts| > 4 && parts[4] != "" then CustomersOf(Split(parts[4], ',')) else Success([]);
      var tunnels := if |parts| > 5 && parts[5] != "" then
          var f := Split(parts[5], ','); TunnelsOf(f, |f| / 4)
        else [];
      var entries := Split(trafficStr, ';');
      var traffic := TrafficOf(entries, |entries|);
      if customers.Failure? || traffic.Failure? then Failure(BadInput)
      else
        var stores := StoresOf(m, n, S);
        Success(Config(m, n, traffic.value, tunnels, stores, customers.value, stores))
  }

  /** The parsing part of `fromStrings`, field by field. */
  method ParseConfig(initial: string, trafficStr: string) returns (r: Result<Config>)
    ensures r == ConfigOf(initial, trafficStr)
  {
    var parts := Split(initial, ';');
    if |parts| < 4 {
      return Failure(BadInput);
    }
    var m := ParseInt(parts[0]);
    var n := ParseInt(parts[1]);
    var P := ParseInt(parts[2]);
    var S := ParseInt(parts[3]);
    if m.Failure? || n.Failure? || P.Failure? || S.Failure? {
      assert !AllParse(parts, 0, 4);
      return Failure(BadInput);
    }
    assert AllParse(parts, 0, 4);
    var customers: seq<State> := [];
    if |parts| > 4 && parts[4] != "" {
      var c := ParseCustomers(Split(parts[4], ','));
      if c.Failure? {
        return Failure(BadInput);
      }
      customers := c.value;
    }
    var stores := StoresOf(m.value, n.value, S.value);
    var tunnels: seq<Tunnel> := [];
    if |parts| > 5 && parts[5] != "" {
      tunnels := ParseTunnels(Split(parts[5], ','));
    }
    var traffic := ParseTraffic(Split(trafficStr, ';'));
    if traffic.Failure? {
      return Failure(BadInput);
    }
    return Success(Config(m.value, n.value, traffic.value, tunnels, stores, customers, stores));
  }
}
