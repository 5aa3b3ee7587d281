/** The grid-matrix input format of src/code/DeliverySearch.java
    (`fromString`) and its traffic generator (`GenTraffic`). The matrix
    gives one traffic level per cell; an edge joins two orthogonally
    adjacent cells whose levels are both positive, and entering a cell
    costs that cell's level. */
module LegacyMatrix {
  import opened Wrappers
  import opened Grid
  import opened Tunnels
  import opened JavaText
  import opened DeliveryInput
  import opened LegacyDelivery

  // ------------------------------------------------------------------
  // Cells of the matrix

  /** `t` is one of the four cells next to `s`. */
  predicate Adjacent(s: State, t: State) {
    t == State(s.x - 1, s.y) || t == State(s.x + 1, s.y) || t == State(s.x, s.y - 1) || t == State(s.x, s.y + 1)
  }

  /** Adjacency is symmetric and is a Manhattan distance of one. */
  lemma AdjacentFacts(s: State, t: State)
    ensures Adjacent(s, t) <==> Adjacent(t, s)
    ensures Adjacent(s, t) <==> Manhattan(s, t) == 1
  {
    AbsValue(s.x - t.x);
    AbsValue(s.y - t.y);
  }

  /** `s` is a cell of the matrix with a positive level. */
  predicate Positive(rows: seq<seq<int>>, s: State) {
    0 <= s.x < |rows| && 0 <= s.y < |rows[s.x]| && rows[s.x][s.y] > 0
  }

  /** `s` comes before cell `(i, j)` in row-major order. */
  predicate Before(s: State, i: int, j: int) {
    s.x < i || (s.x == i && s.y < j)
  }

  /** Every row has `n` levels. */
  ghost predicate Rect(rows: seq<seq<int>>, n: nat) {
    forall i :: 0 <= i < |rows| ==> |rows[i]| == n
  }

  /** The array holds the levels of `rows`. */
  ghost predicate Mirrors(a: array2<int>, rows: seq<seq<int>>)
    reads a
  {
    && a.Length0 == |rows| && Rect(rows, a.Length1)
    && forall i, j :: 0 <= i < a.Length0 && 0 <= j < a.Length1 ==> a[i, j] == rows[i][j]
  }

  /** What `fromString` builds from a matrix: the keys are the positive
      cells, a key has an entry for exactly its positive neighbours, and
      the entry into a cell is that cell's level. */
  ghost predicate GridTraffic(rows: seq<seq<int>>, traffic: Traffic) {
    && (forall x :: x in traffic <==> Positive(rows, x))
    && (forall x, y :: x in traffic ==> (y in traffic[x] <==> Positive(rows, y) && Adjacent(x, y)))
    && (forall x, y :: x in traffic && y in traffic[x] ==> Positive(rows, y) && traffic[x][y] == rows[y.x][y.y])
  }

  /** Such a map has an entry from `x` to `y` exactly when it has one from
      `y` to `x`, and every level in it is positive. */
  lemma GridTrafficFacts(rows: seq<seq<int>>, traffic: Traffic)
    requires GridTraffic(rows, traffic)
    ensures forall x, y :: x in traffic && y in traffic[x] ==> y in traffic && x in traffic[y]
    ensures forall x, y :: x in traffic && y in traffic[x] ==> traffic[x][y] > 0
    ensures NoZero(traffic)
  {
    forall x, y | x in traffic && y in traffic[x]
      ensures traffic[x][y] > 0
    {
      assert Positive(rows, y);
    }
    forall x, y | x in traffic && y in traffic[x]
      ensures y in traffic && x in traffic[y]
    {
      AdjacentFacts(x, y);
    }
  }

  // ------------------------------------------------------------------
  // Building the edges, cell by cell

  /** Every key is a positive cell and every entry leads to a positive
      neighbour at that neighbour's level. */
  ghost predicate Sound(rows: seq<seq<int>>, E: Traffic) {
    && (forall x :: x in E ==> Positive(rows, x))
    && (forall x, y :: x in E && y in E[x] ==> Positive(rows, y) && Adjacent(x, y) && E[x][y] == rows[y.x][y.y])
  }

  /** The cells before `(i, j)` are done: each positive one is a key, and
      each pair of positive neighbours one of which is done is linked. */
  ghost predicate Covers(rows: seq<seq<int>>, E: Traffic, i: int, j: int) {
    && (forall x :: Positive(rows, x) && Before(x, i, j) ==> x in E)
    && (forall x, y :: Positive(rows, x) && Positive(rows, y) && Adjacent(x, y) && (Before(x, i, j) || Before(y, i, j)) ==>
          x in E && y in E[x])
  }

  /** Every key and entry of `E` is still in `E'`. */
  ghost predicate Kept(E: Traffic, E': Traffic) {
    && (forall x :: x in E ==> x in E')
    && (forall x, y :: x in E && y in E[x] ==> x in E' && y in E'[x])
  }

  /** Entries both ways between `c` and `t`. */
  predicate Linked(E: Traffic, c: State, t: State) {
    c in E && t in E[c] && t in E && c in E[t]
  }

  /** `get(from).put(to, ...)`, then `putIfAbsent(to, ...)` and `get(to).put(from, ...)`. */
  function Link(E: Traffic, c: State, t: State, vc: int, vt: int): Traffic {
    Put(Put(E, c, t, vt), t, c, vc)
  }

  lemma LinkFacts(rows: seq<seq<int>>, E: Traffic, c: State, t: State)
    requires Sound(rows, E) && Positive(rows, c) && Positive(rows, t) && Adjacent(c, t)
    ensures var L := Link(E, c, t, rows[c.x][c.y], rows[t.x][t.y]);
      Sound(rows, L) && Kept(E, L) && Linked(L, c, t)
  {
    AdjacentFacts(c, t);
    var P := Put(E, c, t, rows[t.x][t.y]);
    PutFacts(rows, E, c, t);
    PutFacts(rows, P, t, c);
    KeptTransitive(E, P, Link(E, c, t, rows[c.x][c.y], rows[t.x][t.y]));
  }

  /** One direction of a link keeps the map sound and keeps its entries. */
  lemma PutFacts(rows: seq<seq<int>>, E: Traffic, c: State, t: State)
    requires Sound(rows, E) && Positive(rows, c) && Positive(rows, t) && Adjacent(c, t)
    ensures var P := Put(E, c, t, rows[t.x][t.y]); Sound(rows, P) && Kept(E, P)
  {
  }

  /** `putIfAbsent(from, new HashMap<>())` for a positive cell. */
  lemma OpenFacts(rows: seq<seq<int>>, E: Traffic, c: State)
    requires Sound(rows, E) && Positive(rows, c) && c !in E
    ensures Sound(rows, E[c := map[]]) && Kept(E, E[c := map[]])
  {
  }

  lemma KeptTransitive(A: Traffic, B: Traffic, C: Traffic)
    requires Kept(A, B) && Kept(B, C)
    ensures Kept(A, C)
  {
  }

  /** The four neighbours of `(i, j)` in the order the source visits them. */
  function Neighbours(i: int, j: int): (r: seq<State>)
    ensures |r| == 4 && forall t :: t in r <==> Adjacent(State(i, j), t)
  {
    [State(i - 1, j), State(i + 1, j), State(i, j - 1), State(i, j + 1)]
  }

  /** Cell `(i, j)` is a key and is linked to each of its first `k`
      neighbours that is positive. */
  ghost predicate LinkedUpTo(rows: seq<seq<int>>, E: Traffic, i: int, j: int, k: nat)
    requires k <= 4
  {
    State(i, j) in E && forall l :: 0 <= l < k && Positive(rows, Neighbours(i, j)[l]) ==> Linked(E, State(i, j), Neighbours(i, j)[l])
  }

  /** Once cell `(i, j)` is linked to all its positive neighbours, it is done. */
  lemma CellDone(rows: seq<seq<int>>, E: Traffic, E': Traffic, i: int, j: int)
    requires Covers(rows, E, i, j) && Kept(E, E')
    requires Positive(rows, State(i, j)) ==> LinkedUpTo(rows, E', i, j, 4)
    ensures Covers(rows, E', i, j + 1)
  {
    var c := State(i, j);
    forall x, y | Positive(rows, x) && Positive(rows, y) && Adjacent(x, y) && (Before(x, i, j + 1) || Before(y, i, j + 1))
      ensures x in E' && y in E'[x]
    {
      if !(Before(x, i, j) || Before(y, i, j)) {
        AdjacentFacts(x, y);
        if x == c {
          assert y in Neighbours(i, j);
          assert Linked(E', c, y);
        } else {
          assert y == c && x in Neighbours(i, j);
          assert Linked(E', c, x);
        }
      }
    }
  }

  /** A row once done leaves the next row to start. */
  lemma RowDone(rows: seq<seq<int>>, E: Traffic, i: int, n: nat)
    requires Rect(rows, n) && Covers(rows, E, i, n)
    ensures Covers(rows, E, i + 1, 0)
  {
    assert forall x :: Positive(rows, x) && Before(x, i + 1, 0) ==> Before(x, i, n);
  }

  /** A link survives a map that keeps `E`'s entries. */
  lemma LinkedKept(E: Traffic, E': Traffic, c: State, t: State)
    requires Linked(E, c, t) && Kept(E, E')
    ensures Linked(E', c, t)
  {
  }

  /** Neighbour `k` of a positive cell `(i, j)`, at `(ti, tj)`: when
      `inside` (the bounds check of the source) holds and its level is
      positive, link the two both ways. Everything already in `base`
      stays. */
  method LinkTo(a: array2<int>, ghost rows: seq<seq<int>>, ghost base: Traffic, E: Traffic, i: nat, j: nat,
                ghost k: nat, inside: bool, ti: int, tj: int)
    returns (E': Traffic)
    requires Mirrors(a, rows) && i < a.Length0 && j < a.Length1 && a[i, j] > 0
    requires k < 4 && Neighbours(i, j)[k] == State(ti, tj)
    requires inside <==> 0 <= ti < a.Length0 && 0 <= tj < a.Length1
    requires Sound(rows, E) && Kept(base, E) && LinkedUpTo(rows, E, i, j, k)
    ensures Sound(rows, E') && Kept(base, E') && LinkedUpTo(rows, E', i, j, k + 1)
  {
    E' := E;
    var c, t := State(i, j), State(ti, tj);
    if inside && a[ti, tj] > 0 {
      assert Positive(rows, c) && Positive(rows, t);
      LinkFacts(rows, E, c, t);
      E' := Link(E, c, t, a[i, j], a[ti, tj]);
      KeptTransitive(base, E, E');
      forall l | 0 <= l < k && Positive(rows, Neighbours(i, j)[l])
        ensures Linked(E', c, Neighbours(i, j)[l])
      {
        LinkedKept(E, E', c, Neighbours(i, j)[l]);
      }
    } else {
      assert !Positive(rows, t);
    }
  }

  /** The body of the loop of `fromString` for a positive cell `(i, j)`:
      it becomes a key and is linked both ways to each positive in-bounds
      neighbour, up, down, left and right. */
  method ConnectPositive(a: array2<int>, ghost rows: seq<seq<int>>, E: Traffic, i: nat, j: nat) returns (E': Traffic)
    requires Mirrors(a, rows) && i < a.Length0 && j < a.Length1 && a[i, j] > 0
    requires Sound(rows, E)
    ensures Sound(rows, E') && Kept(E, E') && LinkedUpTo(rows, E', i, j, 4)
  {
    var m, n := a.Length0, a.Length1;
    var from := State(i, j);
    assert Positive(rows, from);
    E' := E;
    if from !in E' {
      OpenFacts(rows, E, from);
      E' := E[from := map[]];
    }
    E' := LinkTo(a, rows, E, E', i, j, 0, i > 0, i - 1, j);
    E' := LinkTo(a, rows, E, E', i, j, 1, i < m - 1, i + 1, j);
    E' := LinkTo(a, rows, E, E', i, j, 2, j > 0, i, j - 1);
    E' := LinkTo(a, rows, E, E', i, j, 3, j < n - 1, i, j + 1);
  }

  /** One cell of the loop of `fromString`; a cell whose level is not
      positive is skipped. */
  method ConnectCell(a: array2<int>, ghost rows: seq<seq<int>>, E: Traffic, i: nat, j: nat) returns (E': Traffic)
    requires Mirrors(a, rows) && i < a.Length0 && j < a.Length1
    requires Sound(rows, E) && Covers(rows, E, i, j)
    ensures Sound(rows, E') && Covers(rows, E', i, j + 1)
  {
    if a[i, j] > 0 {
      E' := ConnectPositive(a, rows, E, i, j);
    } else {
      E' := E;
      assert !Positive(rows, State(i, j));
    }
    CellDone(rows, E, E', i, j);
  }

  /** The edge-building loop of `fromString` over the matrix `a`. */
  method BuildEdges(a: array2<int>, ghost rows: seq<seq<int>>) returns (edgeTraffic: Traffic)
    requires Mirrors(a, rows)
    ensures GridTraffic(rows, edgeTraffic)
  {
    edgeTraffic := map[];
    for i := 0 to a.Length0
      invariant Sound(rows, edgeTraffic) && Covers(rows, edgeTraffic, i, 0)
    {
      for j := 0 to a.Length1
        invariant Sound(rows, edgeTraffic) && Covers(rows, edgeTraffic, i, j)
      {
        edgeTraffic := ConnectCell(a, rows, edgeTraffic, i, j);
      }
      RowDone(rows, edgeTraffic, i, a.Length1);
    }
    assert forall x :: Positive(rows, x) ==> Before(x, a.Length0, 0);
  }

  // ------------------------------------------------------------------
  // Reading the lines

  /** The first `width` fields as integers; a missing field or one that is
      not an integer is an error. */
  function IntsOf(f: seq<string>, width: nat): (r: Result<seq<int>>)
    ensures r.Success? ==> |r.value| == width
  {
    if |f| < width || !AllParse(f, 0, width) then Failure(BadInput)
    else Success(seq(width, j requires 0 <= j < width => ParseInt(f[j]).value))
  }

  /** The first `width` space-separated integers of line `k`; a missing
      line is an error too. The fields are taken before Java's `split`
      drops the trailing empty ones, which `IntsOfSplit` shows makes no
      difference. */
  function RowOf(lines: seq<string>, k: nat, width: nat): (r: Result<seq<int>>)
    ensures r.Success? ==> |r.value| == width
  {
    if k >= |lines| then Failure(BadInput) else IntsOf(Fields(lines[k], ' '), width)
  }

  /** Reading the first `width` fields of `split(" ")` and of all the
      fields is the same: the fields `split` drops are empty, and an empty
      field is not an integer. */
  lemma IntsOfSplit(s: string, width: nat)
    ensures IntsOf(Split(s, ' '), width) == IntsOf(Fields(s, ' '), width)
  {
    var S, F := Split(s, ' '), Fields(s, ' ');
    if ' ' !in s {
      OneField(s, ' ');
    } else if |S| >= width {
      assert S <= F;
      assert forall j :: 0 <= j < width ==> S[j] == F[j];
      assert AllParse(S, 0, width) == AllParse(F, 0, width);
      if AllParse(S, 0, width) {
        assert IntsOf(S, width).value == IntsOf(F, width).value;
      }
    } else if |F| >= width {
      assert F[|S|] == "";
      assert ParseInt("").Failure?;
      assert !AllParse(F, 0, width);
    }
  }

  /** The rows of the `count` lines from line `start`. */
  function RecordsOf(lines: seq<string>, start: nat, count: nat, width: nat): (r: Result<seq<seq<int>>>)
    ensures r.Success? ==> |r.value| == count && Rect(r.value, width)
    decreases count
  {
    if count == 0 then Success([])
    else
      match RecordsOf(lines, start, count - 1, width)
      case Failure(e) => Failure(e)
      case Success(prev) =>
        match RowOf(lines, start + count - 1, width)
        case Failure(e) => Failure(e)
        case Success(row) => Success(prev + [row])
  }

  /** A section: a line with a count, then that many lines of `width`
      integers (none for a count below one). Gives the rows and the index
      of the line after the section. */
  function SectionOf(lines: seq<string>, idx: nat, width: nat): (r: Result<(seq<seq<int>>, nat)>)
    ensures r.Success? ==> Rect(r.value.0, width) && r.value.1 == idx + 1 + |r.value.0|
  {
    if idx >= |lines| || ParseInt(lines[idx]).Failure? then Failure(BadInput)
    else
      var v := ParseInt(lines[idx]).value;
      var count: nat := if v < 0 then 0 else v;
      var rs := RecordsOf(lines, idx + 1, count, width);
      if rs.Failure? then Failure(BadInput) else Success((rs.value, idx + 1 + count))
  }

  /** The states of rows `x y`. */
  function PointsOf(rs: seq<seq<int>>): (ps: seq<State>)
    requires Rect(rs, 2)
    ensures |ps| == |rs| && forall k :: 0 <= k < |rs| ==> ps[k] == State(rs[k][0], rs[k][1])
  {
    seq(|rs|, k requires 0 <= k < |rs| => State(rs[k][0], rs[k][1]))
  }

  /** The tunnels of rows `x1 y1 x2 y2`. */
  function TunnelRowsOf(rs: seq<seq<int>>): (ts: seq<Tunnel>)
    requires Rect(rs, 4)
    ensures |ts| == |rs| && forall k :: 0 <= k < |rs| ==> ts[k] == Tunnel.Tunnel(State(rs[k][0], rs[k][1]), State(rs[k][2], rs[k][3]))
  {
    seq(|rs|, k requires 0 <= k < |rs| => Tunnel.Tunnel(State(rs[k][0], rs[k][1]), State(rs[k][2], rs[k][3])))
  }

  /** What the lines of the matrix format say, before the edges are built. */
  datatype MatrixInput = MatrixInput(m: nat, n: nat, rows: seq<seq<int>>, tunnels: seq<Tunnel>,
                                     stores: seq<State>, customers: seq<State>, trucks: seq<State>)

  /** The first line, `m n` (its first two fields; see `RowOf`); a
      negative size is the `NegativeArraySizeException` of `new int[m][n]`. */
  function HeaderOf(lines: seq<string>): Result<(nat, nat)> {
    if |lines| == 0 then Failure(BadInput)
    else
      var mn := IntsOf(Fields(lines[0], ' '), 2);
      if mn.Failure? then Failure(BadInput)
      else if mn.value[0] < 0 || mn.value[1] < 0 then Failure(BadInput)
      else Success((mn.value[0], mn.value[1]))
  }

  /** The four sections after the matrix. */
  datatype Sections = Sections(tunnels: seq<Tunnel>, stores: seq<State>, customers: seq<State>, trucks: seq<State>)

  /** The tunnel, store, customer and truck sections from line `idx`. */
  function SectionsOf(lines: seq<string>, idx: nat): Result<Sections> {
    var ts := SectionOf(lines, idx, 4);
    if ts.Failure? then Failure(BadInput)
    else
      var ss := SectionOf(lines, ts.value.1, 2);
      if ss.Failure? then Failure(BadInput)
      else
        var cs := SectionOf(lines, ss.value.1, 2);
        if cs.Failure? then Failure(BadInput)
        else
          var trs := SectionOf(lines, cs.value.1, 2);
          if trs.Failure? then Failure(BadInput)
          else Success(Sections(TunnelRowsOf(ts.value.0), PointsOf(ss.value.0), PointsOf(cs.value.0), PointsOf(trs.value.0)))
  }

  /** `fromString`'s reading of its lines: `m n`, then `m` rows of `n`
      levels, then the sections. Every error is an uncaught exception, a
      failure here. */
  function InputOfLines(lines: seq<string>): (r: Result<MatrixInput>)
    ensures r.Success? ==> |r.value.rows| == r.value.m && Rect(r.value.rows, r.value.n)
  {
    var h := HeaderOf(lines);
    if h.Failure? then Failure(BadInput)
    else InputOfSized(lines, h.value.0, h.value.1)
  }

  /** The rest of the input once the header has given `m` and `n`: the
      matrix rows, then the four sections. */
  function InputOfSized(lines: seq<string>, m: nat, n: nat): (r: Result<MatrixInput>)
    ensures r.Success? ==> |r.value.rows| == m && Rect(r.value.rows, n)
  {
    var rows := RecordsOf(lines, 1, m, n);
    if rows.Failure? then Failure(BadInput)
    else InputWithRows(lines, m, n, rows.value)
  }

  /** The input once the matrix is read: the four sections after it. */
  function InputWithRows(lines: seq<string>, m: nat, n: nat, rows: seq<seq<int>>): (r: Result<MatrixInput>)
    ensures r.Success? ==> r.value.rows == rows && r.value.m == m && r.value.n == n
  {
    var secs := SectionsOf(lines, 1 + m);
    if secs.Failure? then Failure(BadInput)
    else Success(MatrixInput(m, n, rows, secs.value.tunnels, secs.value.stores, secs.value.customers, secs.value.trucks))
  }

  /** `fromString`'s reading of `gridStr`, split into lines. */
  function MatrixInputOf(gridStr: string): (r: Result<MatrixInput>) {
    InputOfLines(Split(gridStr, '\n'))
  }

  /** Row `i` of the matrix from the fields of its line:
      `traffic[i][j] = Integer.parseInt(row[j])` for every `j < n`. */
  method ParseRow(traffic: array2<int>, row: seq<string>, i: nat) returns (ok: bool)
    requires i < traffic.Length0
    modifies traffic
    ensures ok <==> IntsOf(row, traffic.Length1).Success?
    ensures ok ==> forall j :: 0 <= j < traffic.Length1 ==> traffic[i, j] == IntsOf(row, traffic.Length1).value[j]
    ensures forall i', j :: 0 <= i' < traffic.Length0 && i' != i && 0 <= j < traffic.Length1 ==> traffic[i', j] == old(traffic[i', j])
  {
    for j := 0 to traffic.Length1
      invariant j <= |row| && AllParse(row, 0, j)
      invariant forall j' :: 0 <= j' < j ==> traffic[i, j'] == ParseInt(row[j']).value
      invariant forall i', j' :: 0 <= i' < traffic.Length0 && i' != i && 0 <= j' < traffic.Length1 ==> traffic[i', j'] == old(traffic[i', j'])
    {
      if j >= |row| {
        return false;
      }
      var v := ParseInt(row[j]);
      if v.Failure? {
        return false;
      }
      traffic[i, j] := v.value;
    }
    return true;
  }

  /** Row `i` of the matrix: line `1 + i` split at spaces. */
  method FillRow(traffic: array2<int>, lines: seq<string>, i: nat) returns (ok: bool)
    requires i < traffic.Length0
    modifies traffic
    ensures ok <==> RowOf(lines, 1 + i, traffic.Length1).Success?
    ensures ok ==> forall j :: 0 <= j < traffic.Length1 ==> traffic[i, j] == RowOf(lines, 1 + i, traffic.Length1).value[j]
    ensures forall i', j :: 0 <= i' < traffic.Length0 && i' != i && 0 <= j < traffic.Length1 ==> traffic[i', j] == old(traffic[i', j])
  {
    if 1 + i >= |lines| {
      return false;
    }
    var row := Split(lines[1 + i], ' ');
    IntsOfSplit(lines[1 + i], traffic.Length1);
    ok := ParseRow(traffic, row, i);
  }

  /** The matrix part of `fromString`: `new int[m][n]` filled row by row. */
  method ReadMatrix(lines: seq<string>, m: nat, n: nat) returns (r: Result<array2<int>>)
    ensures r.Success? <==> RecordsOf(lines, 1, m, n).Success?
    ensures r.Success? ==> fresh(r.value) && Mirrors(r.value, RecordsOf(lines, 1, m, n).value)
  {
    var traffic := new int[m, n];
    for i := 0 to m
      invariant RecordsOf(lines, 1, i, n).Success?
      invariant forall i', j :: 0 <= i' < i && 0 <= j < n ==> traffic[i', j] == RecordsOf(lines, 1, i, n).value[i'][j]
    {
      ghost var before := RecordsOf(lines, 1, i, n).value;
      var ok := FillRow(traffic, lines, i);
      if !ok {
        RecordsFailureStays(lines, n, i + 1, m);
        return Failure(BadInput);
      }
      assert RecordsOf(lines, 1, i + 1, n).value == before + [RowOf(lines, 1 + i, n).value];
    }
    return Success(traffic);
  }

  /** Once a row is malformed, so is every longer run of rows. */
  lemma {:induction false} RecordsFailureStays(lines: seq<string>, width: nat, k: nat, k': nat)
    requires k <= k' && RecordsOf(lines, 1, k, width).Failure?
    ensures RecordsOf(lines, 1, k', width).Failure?
    decreases k'
  {
    if k' > k {
      RecordsFailureStays(lines, width, k, k' - 1);
    }
  }

  /** One section of `fromString`: the count line, then one line per record. */
  method ReadSection(lines: seq<string>, idx: nat, width: nat) returns (r: Result<(seq<seq<int>>, nat)>)
    ensures r == SectionOf(lines, idx, width)
  {
    if idx >= |lines| {
      return Failure(BadInput);
    }
    var num := ParseInt(lines[idx]);
    if num.Failure? {
      return Failure(BadInput);
    }
    var count: nat := if num.value < 0 then 0 else num.value;
    var records: seq<seq<int>> := [];
    for k := 0 to count
      invariant RecordsOf(lines, idx + 1, k, width) == Success(records)
    {
      var row := RowOf(lines, idx + 1 + k, width);
      if row.Failure? {
        SectionFailureStays(lines, idx + 1, width, k + 1, count);
        return Failure(BadInput);
      }
      records := records + [row.value];
    }
    return Success((records, idx + 1 + count));
  }

  lemma {:induction false} SectionFailureStays(lines: seq<string>, start: nat, width: nat, k: nat, k': nat)
    requires k <= k' && RecordsOf(lines, start, k, width).Failure?
    ensures RecordsOf(lines, start, k', width).Failure?
    decreases k'
  {
    if k' > k {
      SectionFailureStays(lines, start, width, k, k' - 1);
    }
  }

  /** The first line of `fromString`: `m` and `n` from its split at spaces. */
  method ReadHeader(lines: seq<string>) returns (r: Result<(nat, nat)>)
    ensures r == HeaderOf(lines)
  {
    if |lines| == 0 {
      return Failure(BadInput);
    }
    var mn := Split(lines[0], ' ');
    IntsOfSplit(lines[0], 2);
    if |mn| < 2 {
      return Failure(BadInput);
    }
    var m := ParseInt(mn[0]);
    var n := ParseInt(mn[1]);
    if m.Failure? || n.Failure? {
      assert !AllParse(mn, 0, 2);
      return Failure(BadInput);
    }
    assert AllParse(mn, 0, 2);
    if m.value < 0 || n.value < 0 {
      return Failure(BadInput);
    }
    return Success((m.value, n.value));
  }

  /** The four sections of `fromString`, one after the other. */
  method ReadSections(lines: seq<string>, idx: nat) returns (r: Result<Sections>)
    ensures r == SectionsOf(lines, idx)
  {
    var ts := ReadSection(lines, idx, 4);
    if ts.Failure? {
      return Failure(BadInput);
    }
    var ss := ReadSection(lines, ts.value.1, 2);
    if ss.Failure? {
      return Failure(BadInput);
    }
    var cs := ReadSection(lines, ss.value.1, 2);
    if cs.Failure? {
      return Failure(BadInput);
    }
    var trs := ReadSection(lines, cs.value.1, 2);
    if trs.Failure? {
      return Failure(BadInput);
    }
    return Success(Sections(TunnelRowsOf(ts.value.0), PointsOf(ss.value.0), PointsOf(cs.value.0), PointsOf(trs.value.0)));
  }

  /** `fromString`: read the lines, fill the matrix, build the edges from
      it, and make the problem with a fresh Manhattan heuristic. */
  method FromString(gridStr: string) returns (r: Result<LegacyDeliverySearch>)
    ensures r.Success? <==> MatrixInputOf(gridStr).Success?
    ensures r.Success? ==> Made(MatrixInputOf(gridStr).value, r.value)
    ensures r.Success? ==> fresh(r.value) && fresh(r.value.h1)
  {
    var lines := Split(gridStr, '\n');
    r := FromLines(lines);
  }

  /** `ds` is the problem of the input `g`: its traffic is built from
      the matrix and the rest is as read; no search has been set up yet. */
  ghost predicate Made(g: MatrixInput, ds: LegacyDeliverySearch)
    reads ds
  {
    && ds.m == g.m && ds.n == g.n && GridTraffic(g.rows, ds.traffic)
    && ds.tunnels == g.tunnels && ds.stores == g.stores
    && ds.customers == g.customers && ds.trucks == g.trucks
    && ds.start == None && ds.goal == None
  }

  /** The body of `fromString` after the split into lines. */
  method FromLines(lines: seq<string>) returns (r: Result<LegacyDeliverySearch>)
    ensures r.Success? <==> InputOfLines(lines).Success?
    ensures r.Success? ==> Made(InputOfLines(lines).value, r.value)
    ensures r.Success? ==> fresh(r.value) && fresh(r.value.h1)
  {
    var h := ReadHeader(lines);
    if h.Failure? {
      return Failure(BadInput);
    }
    r := FromSized(lines, h.value.0, h.value.1);
  }

  /** `fromString` once the header has been read. */
  method FromSized(lines: seq<string>, m: nat, n: nat) returns (r: Result<LegacyDeliverySearch>)
    ensures r.Success? <==> InputOfSized(lines, m, n).Success?
    ensures r.Success? ==> Made(InputOfSized(lines, m, n).value, r.value)
    ensures r.Success? ==> fresh(r.value) && fresh(r.value.h1)
  {
    var traffic := ReadMatrix(lines, m, n);
    if traffic.Failure? {
      return Failure(BadInput);
    }
    r := FromMatrix(lines, m, n, traffic.value, RecordsOf(lines, 1, m, n).value);
  }

  /** `fromString` once the matrix has been read into `traffic`. */
  method FromMatrix(lines: seq<string>, m: nat, n: nat, traffic: array2<int>, ghost rows: seq<seq<int>>)
    returns (r: Result<LegacyDeliverySearch>)
    requires Mirrors(traffic, rows)
    ensures r.Success? <==> InputWithRows(lines, m, n, rows).Success?
    ensures r.Success? ==> Made(InputWithRows(lines, m, n, rows).value, r.value)
    ensures r.Success? ==> fresh(r.value) && fresh(r.value.h1)
  {
    var secs := ReadSections(lines, 1 + m);
    if secs.Failure? {
      return Failure(BadInput);
    }
    ghost var g := MatrixInput(m, n, rows, secs.value.tunnels, secs.value.stores, secs.value.customers, secs.value.trucks);
    assert InputWithRows(lines, m, n, rows) == Success(g);
    var ds := Assemble(m, n, traffic, rows, secs.value);
    return Success(ds);
  }

  /** The end of `fromString`: the edges built from the matrix, and the
      problem made with a fresh Manhattan heuristic. */
  method Assemble(m: nat, n: nat, traffic: array2<int>, ghost rows: seq<seq<int>>, secs: Sections)
    returns (ds: LegacyDeliverySearch)
    requires Mirrors(traffic, rows)
    ensures fresh(ds) && fresh(ds.h1)
    ensures Made(MatrixInput(m, n, rows, secs.tunnels, secs.stores, secs.customers, secs.trucks), ds)
  {
    var edgeTraffic := BuildEdges(traffic, rows);
    var h1 := new LegacyManhattan();
    var c := Config(m, n, edgeTraffic, secs.tunnels, secs.stores, secs.customers, secs.trucks);
    ds := new LegacyDeliverySearch(c, h1);
  }

  // ------------------------------------------------------------------
  // GenTraffic

  /** `m = 5, n = 5`. */
  const Size: nat := 5

  predicate InGrid(m: int, n: int, s: State) {
    0 <= s.x < m && 0 <= s.y < n
  }

  /** The pairs one cell writes, in the order of its four `if`s: up, down,
      left, right, each when it stays in the grid. */
  function CellPairs(m: nat, n: nat, i: int, j: int): seq<(State, State)> {
    var c := State(i, j);
    Opt(i > 0, (c, State(i - 1, j))) + Opt(i < m - 1, (c, State(i + 1, j)))
    + Opt(j > 0, (c, State(i, j - 1))) + Opt(j < n - 1, (c, State(i, j + 1)))
  }

  /** The pair `p` when `b` holds. */
  function Opt(b: bool, p: (State, State)): seq<(State, State)> {
    if b then [p] else []
  }

  /** The pairs written by the cells before `(i, j)` in row-major order. */
  function PairsBefore(m: nat, n: nat, i: nat, j: nat): seq<(State, State)>
    requires j <= n
    decreases i, j
  {
    if j == 0 then (if i == 0 then [] else PairsBefore(m, n, i - 1, n))
    else PairsBefore(m, n, i, j - 1) + CellPairs(m, n, i, j - 1)
  }

  /** No element occurs twice. */
  predicate Distinct<T(==)>(s: seq<T>) {
    forall k, l :: 0 <= k < l < |s| ==> s[k] != s[l]
  }

  lemma DistinctCat<T>(a: seq<T>, b: seq<T>)
    requires Distinct(a) && Distinct(b) && forall x :: x in a ==> x !in b
    ensures Distinct(a + b)
  {
    forall k, l | 0 <= k < l < |a + b|
      ensures (a + b)[k] != (a + b)[l]
    {
      if k < |a| && l >= |a| {
        assert (a + b)[k] in a && (a + b)[l] == b[l - |a|];
      } else if k >= |a| {
        assert (a + b)[k] == b[k - |a|] && (a + b)[l] == b[l - |a|];
      }
    }
  }

  /** A cell's pairs start at the cell and lead to each of its in-grid
      neighbours. */
  lemma CellPairsMembers(m: nat, n: nat, i: int, j: int)
    requires InGrid(m, n, State(i, j))
    ensures forall p :: p in CellPairs(m, n, i, j) <==> p.0 == State(i, j) && InGrid(m, n, p.1) && Adjacent(p.0, p.1)
  {
    var c := State(i, j);
    var A, B := Opt(i > 0, (c, State(i - 1, j))), Opt(i < m - 1, (c, State(i + 1, j)));
    var C, D := Opt(j > 0, (c, State(i, j - 1))), Opt(j < n - 1, (c, State(i, j + 1)));
    assert CellPairs(m, n, i, j) == A + B + C + D;
    forall p: (State, State)
      ensures p in A + B + C + D <==> p.0 == c && InGrid(m, n, p.1) && Adjacent(p.0, p.1)
    {
      assert p in A + B + C + D <==> p in A || p in B || p in C || p in D;
    }
  }

  /** A cell writes each of its pairs once. */
  lemma CellPairsDistinct(m: nat, n: nat, i: int, j: int)
    ensures Distinct(CellPairs(m, n, i, j))
  {
    var c := State(i, j);
    var A, B := Opt(i > 0, (c, State(i - 1, j))), Opt(i < m - 1, (c, State(i + 1, j)));
    var C, D := Opt(j > 0, (c, State(i, j - 1))), Opt(j < n - 1, (c, State(i, j + 1)));
    DistinctCat(A, B);
    DistinctCat(A + B, C);
    DistinctCat(A + B + C, D);
  }

  /** The pairs before `(i, j)` are exactly the in-grid adjacent pairs whose
      first cell comes before `(i, j)`. */
  lemma {:induction false} PairsBeforeMembers(m: nat, n: nat, i: nat, j: nat)
    requires j <= n && (i < m || (i == m && j == 0))
    ensures forall p :: p in PairsBefore(m, n, i, j) <==>
      InGrid(m, n, p.0) && Before(p.0, i, j) && InGrid(m, n, p.1) && Adjacent(p.0, p.1)
    decreases i, j
  {
    if j == 0 {
      if i > 0 {
        PairsBeforeMembers(m, n, i - 1, n);
        assert forall s :: InGrid(m, n, s) ==> (Before(s, i - 1, n) <==> Before(s, i, 0));
      }
    } else {
      var prev, cell := PairsBefore(m, n, i, j - 1), CellPairs(m, n, i, j - 1);
      PairsBeforeMembers(m, n, i, j - 1);
      CellPairsMembers(m, n, i, j - 1);
      assert PairsBefore(m, n, i, j) == prev + cell;
      forall p: (State, State)
        ensures p in prev + cell <==> InGrid(m, n, p.0) && Before(p.0, i, j) && InGrid(m, n, p.1) && Adjacent(p.0, p.1)
      {
        assert p in prev + cell <==> p in prev || p in cell;
        assert Before(p.0, i, j) <==> Before(p.0, i, j - 1) || p.0 == State(i, j - 1);
      }
    }
  }

  /** The pairs before `(i, j)` start at cells before `(i, j)`. */
  lemma {:induction false} PairsBeforeStart(m: nat, n: nat, i: nat, j: nat)
    requires j <= n
    ensures forall p :: p in PairsBefore(m, n, i, j) ==> Before(p.0, i, j)
    decreases i, j
  {
    if j == 0 {
      if i > 0 {
        PairsBeforeStart(m, n, i - 1, n);
      }
    } else {
      PairsBeforeStart(m, n, i, j - 1);
      var c := State(i, j - 1);
      var A, B := Opt(i > 0, (c, State(i - 1, j - 1))), Opt(i < m - 1, (c, State(i + 1, j - 1)));
      var C, D := Opt(j - 1 > 0, (c, State(i, j - 2))), Opt(j - 1 < n - 1, (c, State(i, j)));
      assert PairsBefore(m, n, i, j) == PairsBefore(m, n, i, j - 1) + (A + B + C + D);
    }
  }

  /** `GenTraffic` writes each pair once: two cells write different pairs
      since the pairs start at their cell. */
  lemma {:induction false} PairsBeforeDistinct(m: nat, n: nat, i: nat, j: nat)
    requires j <= n
    ensures Distinct(PairsBefore(m, n, i, j))
    decreases i, j
  {
    if j == 0 {
      if i > 0 {
        PairsBeforeDistinct(m, n, i - 1, n);
      }
    } else {
      var prev, cell := PairsBefore(m, n, i, j - 1), CellPairs(m, n, i, j - 1);
      PairsBeforeDistinct(m, n, i, j - 1);
      PairsBeforeStart(m, n, i, j - 1);
      CellPairsDistinct(m, n, i, j - 1);
      var c := State(i, j - 1);
      var A, B := Opt(i > 0, (c, State(i - 1, j - 1))), Opt(i < m - 1, (c, State(i + 1, j - 1)));
      var C, D := Opt(j - 1 > 0, (c, State(i, j - 2))), Opt(j - 1 < n - 1, (c, State(i, j)));
      assert cell == A + B + C + D;
      forall x | x in prev ensures x !in cell {
        assert Before(x.0, i, j - 1);
      }
      DistinctCat(prev, cell);
    }
  }

  /** Every pair `GenTraffic` writes: the in-grid adjacent pairs of the whole grid. */
  function GeneratedPairs(m: nat, n: nat): seq<(State, State)> {
    PairsBefore(m, n, m, 0)
  }

  /** The five fields of an entry. */
  function EntryFields(p: (State, State)): seq<string> {
    [IntToString(p.0.x), IntToString(p.0.y), IntToString(p.1.x), IntToString(p.1.y), "1"]
  }

  /** The text of one pair, `i,j,i',j',1`: what the five `append`s of a
      coordinate or `,` and the final `,1` add up to. */
  function EntryText(p: (State, State)): string {
    Join(EntryFields(p), ',')
  }

  /** An entry is not empty and holds no `;`, and its fields hold no `,`. */
  lemma EntryTextFacts(p: (State, State))
    ensures EntryText(p) != "" && ';' !in EntryText(p)
    ensures forall k :: 0 <= k < 5 ==> ',' !in EntryFields(p)[k]
  {
    var f := EntryFields(p);
    IntToStringHasNo(p.0.x, ';');
    IntToStringHasNo(p.0.y, ';');
    IntToStringHasNo(p.1.x, ';');
    IntToStringHasNo(p.1.y, ';');
    IntToStringHasNo(p.0.x, ',');
    IntToStringHasNo(p.0.y, ',');
    IntToStringHasNo(p.1.x, ',');
    IntToStringHasNo(p.1.y, ',');
    JoinAvoids(f, ',', ';');
    JoinLast(f, ',');
  }

  function EntryTexts(ps: seq<(State, State)>): (r: seq<string>)
    ensures |r| == |ps| && forall k :: 0 <= k < |ps| ==> r[k] == EntryText(ps[k])
  {
    seq(|ps|, k requires 0 <= k < |ps| => EntryText(ps[k]))
  }

  /** A join whose last part is not empty is not empty. */
  lemma {:induction false} JoinLast(parts: seq<string>, sep: char)
    requires |parts| > 0 && parts[|parts| - 1] != ""
    ensures Join(parts, sep) != ""
    decreases |parts|
  {
    if |parts| > 1 {
      JoinLast(parts[1..], sep);
    }
  }

  /** The entries of consecutive runs of pairs follow each other. */
  lemma EntryTextsCat(ps: seq<(State, State)>, qs: seq<(State, State)>)
    ensures EntryTexts(ps + qs) == EntryTexts(ps) + EntryTexts(qs)
  {
    assert forall k :: 0 <= k < |ps + qs| ==> (ps + qs)[k] == if k < |ps| then ps[k] else qs[k - |ps|];
  }

  /** What the `StringBuilder` holds: every part followed by `;`. */
  function Terminated(parts: seq<string>): string
    decreases |parts|
  {
    if parts == [] then "" else Terminated(parts[..|parts| - 1]) + parts[|parts| - 1] + ";"
  }

  lemma {:induction false} TerminatedCat(parts: seq<string>, more: seq<string>)
    ensures Terminated(parts + more) == Terminated(parts) + Terminated(more)
    decreases |more|
  {
    if more == [] {
      assert parts + more == parts;
    } else {
      var init, last := more[..|more| - 1], more[|more| - 1];
      assert (parts + more)[..|parts + more| - 1] == parts + init;
      TerminatedCat(parts, init);
    }
  }

  /** Removing the last `;` leaves the parts joined by `;`. */
  lemma {:induction false} TerminatedJoin(parts: seq<string>)
    requires parts != []
    ensures var w := Terminated(parts); |w| > 0 && w[..|w| - 1] == Join(parts, ';')
    decreases |parts|
  {
    var init, last := parts[..|parts| - 1], parts[|parts| - 1];
    var w := Terminated(parts);
    assert w[..|w| - 1] == Terminated(init) + last;
    if init == [] {
      assert parts == [last];
    } else {
      TerminatedJoin(init);
      var wi := Terminated(init);
      assert wi == wi[..|wi| - 1] + ";";
      assert init + [last] == parts;
      JoinSnoc(init, last, ';');
    }
  }

  /** What one `if` of a cell appends. */
  function OptText(b: bool, p: (State, State)): string {
    if b then EntryText(p) + ";" else ""
  }

  lemma OptWritten(b: bool, p: (State, State))
    ensures Terminated(EntryTexts(Opt(b, p))) == OptText(b, p)
  {
    if b {
      assert EntryTexts([p]) == [EntryText(p)];
      assert [EntryText(p)][..0] == [];
    }
  }

  /** What four runs of pairs append, run by run. */
  lemma FourWritten(A: seq<(State, State)>, B: seq<(State, State)>, C: seq<(State, State)>, D: seq<(State, State)>)
    ensures Terminated(EntryTexts(A + B + C + D))
      == Terminated(EntryTexts(A)) + Terminated(EntryTexts(B)) + Terminated(EntryTexts(C)) + Terminated(EntryTexts(D))
  {
    EntryTextsCat(A + B + C, D);
    EntryTextsCat(A + B, C);
    EntryTextsCat(A, B);
    TerminatedCat(EntryTexts(A) + EntryTexts(B) + EntryTexts(C), EntryTexts(D));
    TerminatedCat(EntryTexts(A) + EntryTexts(B), EntryTexts(C));
    TerminatedCat(EntryTexts(A), EntryTexts(B));
  }

  /** A cell's entries in the builder, one `if` at a time. */
  lemma CellWritten(m: nat, n: nat, i: int, j: int)
    ensures var c := State(i, j);
      Terminated(EntryTexts(CellPairs(m, n, i, j)))
      == OptText(i > 0, (c, State(i - 1, j))) + OptText(i < m - 1, (c, State(i + 1, j)))
       + OptText(j > 0, (c, State(i, j - 1))) + OptText(j < n - 1, (c, State(i, j + 1)))
  {
    var c := State(i, j);
    FourWritten(Opt(i > 0, (c, State(i - 1, j))), Opt(i < m - 1, (c, State(i + 1, j))),
                Opt(j > 0, (c, State(i, j - 1))), Opt(j < n - 1, (c, State(i, j + 1))));
    OptWritten(i > 0, (c, State(i - 1, j)));
    OptWritten(i < m - 1, (c, State(i + 1, j)));
    OptWritten(j > 0, (c, State(i, j - 1)));
    OptWritten(j < n - 1, (c, State(i, j + 1)));
  }

  /** The entries of one cell, in the order of its four `if`s. */
  method AppendCell(sb: string, m: nat, n: nat, i: nat, j: nat) returns (sb': string)
    ensures sb' == sb + Terminated(EntryTexts(CellPairs(m, n, i, j)))
  {
    var c := State(i, j);
    var up, down, left, right := "", "", "", "";
    if i > 0 {
      up := EntryText((c, State(i - 1, j))) + ";";
    }
    if i < m - 1 {
      down := EntryText((c, State(i + 1, j))) + ";";
    }
    if j > 0 {
      left := EntryText((c, State(i, j - 1))) + ";";
    }
    if j < n - 1 {
      right := EntryText((c, State(i, j + 1))) + ";";
    }
    CellWritten(m, n, i, j);
    sb' := sb + (up + down + left + right);
  }

  /** The traffic string of an `m` by `n` grid. */
  function TrafficText(m: nat, n: nat): string {
    var ps := GeneratedPairs(m, n);
    if ps == [] then "" else Join(EntryTexts(ps), ';')
  }

  /** The loops of `GenTraffic` over an `m` by `n` grid: for every cell in
      row-major order, one entry per in-grid neighbour, each followed by
      `;`, and the last `;` removed. */
  method TrafficString(m: nat, n: nat) returns (s: string)
    ensures s == TrafficText(m, n)
  {
    var sb := "";
    for i := 0 to m
      invariant sb == Terminated(EntryTexts(PairsBefore(m, n, i, 0)))
    {
      for j := 0 to n
        invariant sb == Terminated(EntryTexts(PairsBefore(m, n, i, j)))
      {
        ghost var before := PairsBefore(m, n, i, j);
        sb := AppendCell(sb, m, n, i, j);
        EntryTextsCat(before, CellPairs(m, n, i, j));
        TerminatedCat(EntryTexts(before), EntryTexts(CellPairs(m, n, i, j)));
      }
    }
    if |sb| > 0 {
      TerminatedJoin(EntryTexts(GeneratedPairs(m, n)));
      sb := sb[..|sb| - 1];
    }
    s := sb;
  }

  /** `GenTraffic`: the traffic string of the 5 by 5 grid. */
  method GenTraffic() returns (s: string)
    ensures s == TrafficText(Size, Size)
  {
    s := TrafficString(Size, Size);
  }

  /** An entry reads back as its pair at level one. */
  lemma EntryParses(p: (State, State))
    requires InInt32(p.0.x) && InInt32(p.0.y) && InInt32(p.1.x) && InInt32(p.1.y)
    ensures EntryOf(EntryText(p)) == Success(Some((p.0, p.1, 1)))
  {
    EntryTextFacts(p);
    SplitJoin(EntryFields(p), ',');
    IntRoundTrip(p.0.x);
    IntRoundTrip(p.0.y);
    IntRoundTrip(p.1.x);
    IntRoundTrip(p.1.y);
    IntRoundTrip(1);
    assert IntToString(1) == "1";
  }

  /** The generated string splits at `;` into one entry per in-grid
      adjacent pair, each pair once, and each entry reads back as that pair
      at level one. */
  lemma TrafficTextFacts(m: nat, n: nat)
    requires m <= MaxInt && n <= MaxInt && GeneratedPairs(m, n) != []
    ensures var ps := GeneratedPairs(m, n);
      && Split(TrafficText(m, n), ';') == EntryTexts(ps)
      && (forall p :: p in ps <==> InGrid(m, n, p.0) && InGrid(m, n, p.1) && Adjacent(p.0, p.1))
      && Distinct(ps)
      && (forall k :: 0 <= k < |ps| ==> EntryOf(Split(TrafficText(m, n), ';')[k]) == Success(Some((ps[k].0, ps[k].1, 1))))
  {
    var ps := GeneratedPairs(m, n);
    PairsBeforeMembers(m, n, m, 0);
    PairsBeforeDistinct(m, n, m, 0);
    var texts := EntryTexts(ps);
    forall k | 0 <= k < |texts| ensures ';' !in texts[k] && texts[k] != "" {
      EntryTextFacts(ps[k]);
    }
    SplitJoin(texts, ';');
    forall k | 0 <= k < |ps|
      ensures EntryOf(texts[k]) == Success(Some((ps[k].0, ps[k].1, 1)))
    {
      assert ps[k] in ps;
      EntryParses(ps[k]);
    }
  }
}
