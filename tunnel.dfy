/** The bidirectional tunnel of backend/src/main/java/code/Tunnel.java: an
    unordered pair of entrances whose traversal costs their Manhattan distance. */
module Tunnels {
  import opened Wrappers
  import opened Grid
  import opened JavaText

  datatype Tunnel = Tunnel(from: State, to: State)

  /** The set of entrances; orientation plays no part in it. */
  function Ends(t: Tunnel): set<State> {
    {t.from, t.to}
  }

  /** `getCost`: the Manhattan distance between the entrances. */
  function TunnelCost(t: Tunnel): (r: nat)
    ensures r == 0 <==> t.from == t.to
  {
    ManhattanZero(t.from, t.to);
    Manhattan(t.from, t.to)
  }

  /** `isEntrance`. */
  predicate IsEntrance(t: Tunnel, s: State) {
    s == t.from || s == t.to
  }

  /** `getOtherEnd`: `None` stands for the Java `null`. */
  function OtherEnd(t: Tunnel, s: State): (r: Option<State>)
    ensures r.Some? <==> IsEntrance(t, s)
    ensures r.Some? ==> Ends(t) == {s, r.value}
  {
    if s == t.from then Some(t.to)
    else if s == t.to then Some(t.from)
    else None
  }

  /** `equals`: same entrances in either orientation. */
  predicate Equals(t: Tunnel, u: Tunnel) {
    (t.from == u.from && t.to == u.to) || (t.from == u.to && t.to == u.from)
  }

  /** `hashCode`: the 32-bit sum of the entrances' hashes. The hash of a
      `State` is a parameter, its class is not part of this model. */
  function HashCode(t: Tunnel, hash: State -> int): (r: int)
    ensures InInt32(r)
  {
    Wrap32(hash(t.from) + hash(t.to))
  }

  /** `isEntrance` holds exactly for the members of `Ends`. */
  lemma EntranceIsEnd(t: Tunnel, s: State)
    ensures IsEntrance(t, s) <==> s in Ends(t)
  {
  }

  /** Going through a tunnel and back returns to the same entrance. */
  lemma OtherEndInvolution(t: Tunnel, s: State)
    requires IsEntrance(t, s)
    ensures IsEntrance(t, OtherEnd(t, s).value)
    ensures OtherEnd(t, OtherEnd(t, s).value) == Some(s)
  {
  }

  /** Two tunnels are equal exactly when they have the same entrances. */
  lemma EqualsSameEnds(t: Tunnel, u: Tunnel)
    ensures Equals(t, u) <==> Ends(t) == Ends(u)
  {
    if Ends(t) == Ends(u) {
      assert t.from in Ends(u) && t.to in Ends(u) && u.from in Ends(t) && u.to in Ends(t);
    }
  }

  /** `equals` ignores orientation and is an equivalence. */
  lemma EqualsEquivalence(t: Tunnel, u: Tunnel, w: Tunnel)
    ensures Equals(t, Tunnel(t.to, t.from))
    ensures Equals(t, t)
    ensures Equals(t, u) ==> Equals(u, t)
    ensures Equals(t, u) && Equals(u, w) ==> Equals(t, w)
  {
    EqualsSameEnds(t, u);
    EqualsSameEnds(u, w);
    EqualsSameEnds(t, w);
  }

  /** Equal tunnels have equal hash codes, whatever the hash of a state. */
  lemma HashRespectsEquals(t: Tunnel, u: Tunnel, hash: State -> int)
    requires Equals(t, u)
    ensures HashCode(t, hash) == HashCode(u, hash)
  {
    if t.from == u.to && t.to == u.from {
      assert hash(t.from) + hash(t.to) == hash(u.from) + hash(u.to);
    }
  }

  /** The cost is the same in both orientations and is the Manhattan
      distance from an entrance to the end it leads to. */
  lemma CostIsDistance(t: Tunnel, s: State)
    ensures TunnelCost(Tunnel(t.to, t.from)) == TunnelCost(t)
    ensures IsEntrance(t, s) ==> TunnelCost(t) == Manhattan(s, OtherEnd(t, s).value)
  {
    ManhattanSymmetric(t.from, t.to);
  }

  // ------------------------------------------------------------------
  // The tunnel list of a grid

  /** Some tunnel of `ts` has `s` as an entrance. */
  predicate AtEntrance(ts: seq<Tunnel>, s: State) {
    exists i :: 0 <= i < |ts| && IsEntrance(ts[i], s)
  }

  /** The other end of the first tunnel, in list order, that has `s` as an
      entrance: what the `TUNNEL` action leads to. */
  function FirstOtherEnd(ts: seq<Tunnel>, s: State): (r: Option<State>)
    ensures r.Some? <==> AtEntrance(ts, s)
    ensures r.Some? ==> exists i :: 0 <= i < |ts| && FirstEntrance(ts, s, i) && r == OtherEnd(ts[i], s)
    decreases |ts|
  {
    if ts == [] then None
    else if IsEntrance(ts[0], s) then
      assert FirstEntrance(ts, s, 0);
      OtherEnd(ts[0], s)
    else
      var r := FirstOtherEnd(ts[1..], s);
      assert AtEntrance(ts[1..], s) ==> AtEntrance(ts, s) by {
        if AtEntrance(ts[1..], s) {
          var i :| 0 <= i < |ts[1..]| && IsEntrance(ts[1..][i], s);
          assert IsEntrance(ts[i + 1], s);
        }
      }
      assert AtEntrance(ts, s) ==> AtEntrance(ts[1..], s) by {
        if AtEntrance(ts, s) {
          var i :| 0 <= i < |ts| && IsEntrance(ts[i], s);
          assert i > 0 && IsEntrance(ts[1..][i - 1], s);
        }
      }
      if r.Some? then
        var i :| 0 <= i < |ts[1..]| && FirstEntrance(ts[1..], s, i) && r == OtherEnd(ts[1..][i], s);
        assert FirstEntrance(ts, s, i + 1);
        r
      else r
  }

  /** `ts[i]` is the first tunnel of the list with entrance `s`. */
  predicate FirstEntrance(ts: seq<Tunnel>, s: State, i: int) {
    0 <= i < |ts| && IsEntrance(ts[i], s) && forall j :: 0 <= j < i ==> !IsEntrance(ts[j], s)
  }

  /** The tunnel step is reversible and costs the tunnel's cost. */
  lemma FirstOtherEndCost(ts: seq<Tunnel>, s: State)
    requires AtEntrance(ts, s)
    ensures exists i :: 0 <= i < |ts| && Manhattan(s, FirstOtherEnd(ts, s).value) == TunnelCost(ts[i])
    ensures FirstOtherEnd(ts, s).value in TunnelEnds(ts)
  {
    var r := FirstOtherEnd(ts, s);
    assert r.Some?;
    var i :| 0 <= i < |ts| && FirstEntrance(ts, s, i) && r == OtherEnd(ts[i], s);
    CostIsDistance(ts[i], s);
    assert Ends(ts[i]) <= TunnelEnds(ts);
  }

  /** Every entrance of every tunnel of the list. */
  function TunnelEnds(ts: seq<Tunnel>): (r: set<State>)
    ensures forall i :: 0 <= i < |ts| ==> Ends(ts[i]) <= r
    decreases |ts|
  {
    if ts == [] then {} else Ends(ts[0]) + TunnelEnds(ts[1..])
  }
}
