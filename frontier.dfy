/** Facts shared by the frontier-based algorithms of
    backend/src/code/GenericSearch.java: the states a frontier holds, the
    children one expansion produces, and what an exhausted search knows. */
module Frontier {
  import opened Wrappers
  import opened Costs
  import opened SearchModel

  /** The states of the nodes of a frontier. */
  ghost function StatesOf<S, A>(q: seq<Node<S, A>>): set<S> {
    set n | n in q :: n.state
  }

  /** Every node of the frontier was built by the engine and lies in `U`. */
  ghost predicate FrontierOk<S, A>(P: Problem<S, A>, U: set<S>, q: seq<Node<S, A>>) {
    forall n :: n in q ==> ValidNode(P, n) && n.state in U
  }

  /** No two nodes of the frontier hold the same state. */
  ghost predicate DistinctStates<S, A>(q: seq<Node<S, A>>) {
    forall i, j :: 0 <= i < j < |q| ==> q[i].state != q[j].state
  }

  /** Every successor of a state of `E` lies in `T`. */
  ghost predicate Covered<S, A>(P: Problem<S, A>, E: set<S>, T: set<S>) {
    forall s, a :: s in E && a in P.actions(s) && P.result(s, a).Some? ==> P.result(s, a).value in T
  }

  /** The offered actions of a state of a closed universe all have a result. */
  lemma OfferedHaveResults<S, A>(P: Problem<S, A>, U: set<S>, s: S)
    requires Closed(P, U) && s in U
    ensures forall a :: a in P.actions(s) ==> P.result(s, a).Some? && P.result(s, a).value in U
  {
  }

  lemma StatesOfAppend<S, A>(p: seq<Node<S, A>>, q: seq<Node<S, A>>)
    ensures StatesOf(p + q) == StatesOf(p) + StatesOf(q)
  {
    assert forall n :: n in p + q <==> n in p || n in q;
  }

  lemma {:induction false} ReverseMembers<T>(s: seq<T>)
    ensures forall x :: x in Reverse(s) <==> x in s
    decreases |s|
  {
    if s != [] {
      ReverseMembers(s[1..]);
      assert s == [s[0]] + s[1..];
    }
  }

  /** Removing the node at `k` loses at most that node's state. */
  lemma StatesOfRemove<S, A>(q: seq<Node<S, A>>, k: int)
    requires 0 <= k < |q|
    ensures StatesOf(q) <= StatesOf(q[..k] + q[k+1..]) + {q[k].state}
    ensures forall n :: n in q[..k] + q[k+1..] ==> n in q
  {
    assert q == q[..k] + [q[k]] + q[k+1..];
    StatesOfAppend(q[..k] + [q[k]], q[k+1..]);
    StatesOfAppend(q[..k], [q[k]]);
    StatesOfAppend(q[..k], q[k+1..]);
  }

  /** Polling the node at `k`: the rest of the frontier keeps its
      properties and lacks at most the polled node's state. */
  lemma PollAt<S, A>(P: Problem<S, A>, U: set<S>, q: seq<Node<S, A>>, k: int)
    requires FrontierOk(P, U, q) && 0 <= k < |q|
    ensures FrontierOk(P, U, q[..k] + q[k+1..])
    ensures StatesOf(q) <= StatesOf(q[..k] + q[k+1..]) + {q[k].state}
    ensures ValidNode(P, q[k]) && q[k].state in U
  {
    StatesOfRemove(q, k);
    assert q[k] in q;
  }

  lemma FrontierOkAppend<S, A>(P: Problem<S, A>, U: set<S>, p: seq<Node<S, A>>, q: seq<Node<S, A>>)
    requires FrontierOk(P, U, p) && FrontierOk(P, U, q)
    ensures FrontierOk(P, U, p + q) && StatesOf(p + q) == StatesOf(p) + StatesOf(q)
  {
    assert forall n :: n in p + q <==> n in p || n in q;
    StatesOfAppend(p, q);
  }

  /** In a frontier of distinct states, dropping the head drops exactly its state. */
  lemma StatesOfTail<S, A>(q: seq<Node<S, A>>)
    requires q != [] && DistinctStates(q)
    ensures StatesOf(q[1..]) == StatesOf(q) - {q[0].state}
    ensures DistinctStates(q[1..])
  {
    assert q == [q[0]] + q[1..];
    StatesOfAppend([q[0]], q[1..]);
    forall n | n in q[1..]
      ensures n.state != q[0].state
    {
      var j :| 0 <= j < |q[1..]| && q[1..][j] == n;
      assert q[j + 1] == n;
    }
  }

  /** Appending a node with a new state keeps the states distinct. */
  lemma StatesOfSnoc<S, A>(q: seq<Node<S, A>>, c: Node<S, A>)
    requires DistinctStates(q) && c.state !in StatesOf(q)
    ensures DistinctStates(q + [c])
    ensures StatesOf(q + [c]) == StatesOf(q) + {c.state}
  {
    StatesOfAppend(q, [c]);
    forall i | 0 <= i < |q|
      ensures (q + [c])[i].state != c.state
    {
      assert q[i] in q;
    }
  }

  /** The nodes one expansion of `n` creates for `acts`, in order, leaving
      out the actions whose resulting state is in `skip`. */
  ghost function Children<S, A>(P: Problem<S, A>, n: Node<S, A>, acts: seq<A>, skip: set<S>): seq<Node<S, A>>
    requires forall a :: a in acts ==> P.result(n.state, a).Some?
    decreases |acts|
  {
    if acts == [] then []
    else
      var t := P.result(n.state, acts[0]).value;
      (if t in skip then [] else [Child(P, n, acts[0], t)]) + Children(P, n, acts[1..], skip)
  }

  lemma {:induction false} ChildrenAppend<S, A>(P: Problem<S, A>, n: Node<S, A>, acts: seq<A>, a: A, skip: set<S>)
    requires forall b :: b in acts + [a] ==> P.result(n.state, b).Some?
    ensures Children(P, n, acts + [a], skip) ==
      Children(P, n, acts, skip) +
      (if P.result(n.state, a).value in skip then [] else [Child(P, n, a, P.result(n.state, a).value)])
    decreases |acts|
  {
    if acts == [] {
      assert [a][1..] == [];
    } else {
      assert (acts + [a])[1..] == acts[1..] + [a];
      ChildrenAppend(P, n, acts[1..], a, skip);
    }
  }

  /** The children are valid nodes of `U`, none holds a skipped state, and
      every result outside `skip` is the state of some child. */
  lemma {:induction false} ChildrenFacts<S, A>(P: Problem<S, A>, U: set<S>, n: Node<S, A>, acts: seq<A>, skip: set<S>)
    requires Closed(P, U) && ValidNode(P, n) && n.state in U
    requires forall a :: a in acts ==> a in P.actions(n.state)
    requires forall a :: a in acts ==> P.result(n.state, a).Some?
    ensures FrontierOk(P, U, Children(P, n, acts, skip))
    ensures StatesOf(Children(P, n, acts, skip)) !! skip
    ensures forall a :: a in acts ==> P.result(n.state, a).value in skip + StatesOf(Children(P, n, acts, skip))
    ensures forall c :: c in Children(P, n, acts, skip) ==> c.depth == n.depth + 1
    decreases |acts|
  {
    if acts != [] {
      ChildrenFacts(P, U, n, acts[1..], skip);
      var t := P.result(n.state, acts[0]).value;
      var head: seq<Node<S, A>> := if t in skip then [] else [Child(P, n, acts[0], t)];
      StatesOfAppend(head, Children(P, n, acts[1..], skip));
      assert forall a :: a in acts ==> a == acts[0] || a in acts[1..];
    }
  }

  /** The children pushed in reverse order, so that the first action's
      child ends up on top of a stack whose top is its last element. */
  method PushChildrenReversed<S(==), A>(P: Problem<S, A>, n: Node<S, A>, acts: seq<A>, skip: set<S>, stack: seq<Node<S, A>>)
    returns (pushed: seq<Node<S, A>>)
    requires forall a :: a in acts ==> P.result(n.state, a).Some?
    ensures pushed == stack + Reverse(Children(P, n, acts, skip))
  {
    pushed := stack;
    var i := |acts|;
    while i > 0
      invariant 0 <= i <= |acts|
      invariant pushed == stack + Reverse(Children(P, n, acts[i..], skip))
    {
      i := i - 1;
      var t := P.result(n.state, acts[i]).value;
      assert acts[i..][1..] == acts[i + 1..];
      var head: seq<Node<S, A>> := if t in skip then [] else [Child(P, n, acts[i], t)];
      ReverseAppend(head, Children(P, n, acts[i + 1..], skip));
      if t !in skip {
        pushed := pushed + [Child(P, n, acts[i], t)];
      }
    }
  }

  /** The children appended in action order (a queue or a priority queue). */
  method PushChildren<S(==), A>(P: Problem<S, A>, n: Node<S, A>, acts: seq<A>, skip: set<S>, q: seq<Node<S, A>>)
    returns (pushed: seq<Node<S, A>>)
    requires forall a :: a in acts ==> P.result(n.state, a).Some?
    ensures pushed == q + Children(P, n, acts, skip)
  {
    pushed := q;
    var j := 0;
    while j < |acts|
      invariant 0 <= j <= |acts|
      invariant pushed == q + Children(P, n, acts[..j], skip)
    {
      var t := P.result(n.state, acts[j]).value;
      assert acts[..j + 1] == acts[..j] + [acts[j]];
      ChildrenAppend(P, n, acts[..j], acts[j], skip);
      if t !in skip {
        pushed := pushed + [Child(P, n, acts[j], t)];
      }
      j := j + 1;
    }
    assert acts[..|acts|] == acts;
  }

  /** The nodes a breadth-first expansion of `n` queues for `acts`: a child
      is queued when its state is neither in `skip` nor already queued by an
      earlier action of the same expansion. */
  ghost function FreshChildren<S, A>(P: Problem<S, A>, n: Node<S, A>, acts: seq<A>, skip: set<S>): seq<Node<S, A>>
    requires forall a :: a in acts ==> P.result(n.state, a).Some?
    decreases |acts|
  {
    if acts == [] then []
    else
      var prev := FreshChildren(P, n, acts[..|acts| - 1], skip);
      var a := acts[|acts| - 1];
      var t := P.result(n.state, a).value;
      if t in skip || t in StatesOf(prev) then prev else prev + [Child(P, n, a, t)]
  }

  /** The queued children are valid nodes of `U` with distinct states
      outside `skip`, and every result is in `skip` or queued. */
  lemma {:induction false} FreshChildrenFacts<S, A>(P: Problem<S, A>, U: set<S>, n: Node<S, A>, acts: seq<A>, skip: set<S>)
    requires Closed(P, U) && ValidNode(P, n) && n.state in U
    requires forall a :: a in acts ==> a in P.actions(n.state)
    requires forall a :: a in acts ==> P.result(n.state, a).Some?
    ensures FrontierOk(P, U, FreshChildren(P, n, acts, skip))
    ensures DistinctStates(FreshChildren(P, n, acts, skip))
    ensures StatesOf(FreshChildren(P, n, acts, skip)) !! skip
    ensures forall a :: a in acts ==> P.result(n.state, a).value in skip + StatesOf(FreshChildren(P, n, acts, skip))
    decreases |acts|
  {
    if acts != [] {
      var init := acts[..|acts| - 1];
      assert forall a :: a in init ==> a in acts;
      FreshChildrenFacts(P, U, n, init, skip);
      var prev := FreshChildren(P, n, init, skip);
      var a := acts[|acts| - 1];
      var t := P.result(n.state, a).value;
      assert acts == init + [a];
      if !(t in skip || t in StatesOf(prev)) {
        StatesOfSnoc(prev, Child(P, n, a, t));
      }
    }
  }

  /** Appending nodes whose distinct states are new keeps a frontier distinct. */
  lemma DistinctAppend<S, A>(p: seq<Node<S, A>>, q: seq<Node<S, A>>)
    requires DistinctStates(p) && DistinctStates(q) && StatesOf(p) !! StatesOf(q)
    ensures DistinctStates(p + q)
  {
    forall i, j | 0 <= i < j < |p + q|
      ensures (p + q)[i].state != (p + q)[j].state
    {
      if j < |p| {
        assert (p + q)[i] == p[i] && (p + q)[j] == p[j];
      } else if i >= |p| {
        assert (p + q)[i] == q[i - |p|] && (p + q)[j] == q[j - |p|];
      } else {
        assert p[i] in p && q[j - |p|] in q;
        assert p[i].state in StatesOf(p) && q[j - |p|].state in StatesOf(q);
      }
    }
  }

  /** The reversed children are the same nodes. */
  lemma ReversedChildren<S, A>(P: Problem<S, A>, U: set<S>, c: seq<Node<S, A>>)
    requires FrontierOk(P, U, c)
    ensures FrontierOk(P, U, Reverse(c)) && StatesOf(Reverse(c)) == StatesOf(c)
  {
    ReverseMembers(c);
    forall x | x in StatesOf(c)
      ensures x in StatesOf(Reverse(c))
    {
      var n :| n in c && n.state == x;
      assert n in Reverse(c);
    }
    forall x | x in StatesOf(Reverse(c))
      ensures x in StatesOf(c)
    {
      var n :| n in Reverse(c) && n.state == x;
      assert n in c;
    }
  }

  /** Expanded states: distinct states of `U`, reachable, not goals, one per expansion. */
  ghost predicate ExpandedStates<S, A(!new)>(P: Problem<S, A>, U: set<S>, explored: set<S>, count: nat) {
    && explored <= U
    && (forall s :: s in explored ==> Reachable(P, s) && !P.isGoal(s))
    && count == |explored|
  }

  /** The expanded states and the frontier's states `T` contain the initial
      state and every successor of an expanded state. */
  ghost predicate Complete<S, A>(P: Problem<S, A>, explored: set<S>, T: set<S>) {
    Covered(P, explored, explored + T) && P.initial in explored + T
  }

  lemma CompleteInit<S, A>(P: Problem<S, A>)
    ensures Complete(P, {}, {P.initial})
  {
  }

  /** Dropping a popped node whose state is already expanded keeps completeness. */
  lemma CompleteSkip<S, A>(P: Problem<S, A>, explored: set<S>, T: set<S>, T': set<S>, s: S)
    requires Complete(P, explored, T) && T <= T' + {s} && s in explored
    ensures Complete(P, explored, T')
  {
    assert explored + T <= explored + T';
  }

  /** Expanding a popped state `s`: the frontier's states go from `T` to
      `T'` (losing at most `s`), and every successor of `s` is expanded or
      on the new frontier. */
  lemma ExpandStep<S, A(!new)>(P: Problem<S, A>, U: set<S>, explored: set<S>, count: nat, T: set<S>, T': set<S>, s: S)
    requires ExpandedStates(P, U, explored, count) && Complete(P, explored, T)
    requires T <= T' + {s}
    requires s in U && s !in explored && Reachable(P, s) && !P.isGoal(s)
    requires forall a :: a in P.actions(s) && P.result(s, a).Some? ==> P.result(s, a).value in explored + {s} + T'
    ensures ExpandedStates(P, U, explored + {s}, count + 1) && Complete(P, explored + {s}, T')
    ensures |U - (explored + {s})| < |U - explored|
  {
    GrowShrinksRemainder(U, explored, s);
    assert explored + T <= (explored + {s}) + T';
  }

  /** A frontier exhausted over a complete set of expanded states. */
  lemma ExhaustedSearch<S, A(!new)>(P: Problem<S, A>, U: set<S>, explored: set<S>, count: nat)
    requires ExpandedStates(P, U, explored, count) && Complete(P, explored, {})
    ensures !GoalReachable(P) && count == |ReachableStates(P, U)|
  {
    assert explored + {} == explored;
    Exhausted(P, U, explored);
  }

  /** `k` holds a smallest key: what a priority queue's `poll` may return. */
  predicate IsMinAt(keys: seq<Cost>, k: int) {
    0 <= k < |keys| && forall i :: 0 <= i < |keys| ==> Le(keys[k], keys[i])
  }

  lemma {:induction false} MinExists(keys: seq<Cost>)
    requires keys != []
    ensures exists k :: IsMinAt(keys, k)
    decreases |keys|
  {
    if |keys| == 1 {
      assert IsMinAt(keys, 0);
    } else {
      var rest := keys[1..];
      MinExists(rest);
      var k :| IsMinAt(rest, k);
      if Le(keys[0], rest[k]) {
        assert IsMinAt(keys, 0);
      } else {
        assert IsMinAt(keys, k + 1);
      }
    }
  }

  /** With the frontier exhausted, the expanded states are exactly the
      reachable ones and none of them is a goal: no goal is reachable. */
  lemma Exhausted<S, A(!new)>(P: Problem<S, A>, U: set<S>, E: set<S>)
    requires E <= U && P.initial in E
    requires Covered(P, E, E)
    requires forall s :: s in E ==> Reachable(P, s) && !P.isGoal(s)
    ensures !GoalReachable(P)
    ensures E == ReachableStates(P, U)
  {
    forall plan | Run(P, Start(P), plan).Some?
      ensures Run(P, Start(P), plan).value.state in E
    {
      ClosedSetHoldsReachable(P, E, Start(P), plan);
    }
    forall s | s in ReachableStates(P, U)
      ensures s in E
    {
      var plan :| Run(P, Start(P), plan).Some? && Run(P, Start(P), plan).value.state == s;
    }
  }

  /** Expanded states are distinct reachable states. */
  lemma ExpandedBound<S, A(!new)>(P: Problem<S, A>, U: set<S>, E: set<S>)
    requires E <= U
    requires forall s :: s in E ==> Reachable(P, s)
    ensures |E| <= |ReachableStates(P, U)|
  {
    SubsetCard(E, ReachableStates(P, U));
  }

  /** A returned goal node: its chain solves the problem, and the result is
      not the failure result. */
  lemma GoalResult<S, A(!new)>(P: Problem<S, A>, n: Node<S, A>)
    requires ValidNode(P, n) && P.isGoal(n.state)
    ensures Outcome(P, SearchResult(PathOf(n), n.pathCost, 0))
    ensures ReachesGoal(P, PathOf(n)) && GoalReachable(P)
    ensures !NoPath(SearchResult(PathOf(n), n.pathCost, 0))
  {
    GoalNodeSolves(P, n);
    NodePlan(P, n);
    assert ReachesGoal(P, PathOf(n));
  }

  // ------------------------------------------------------------------
  // Level order: why breadth-first search returns a plan of fewest actions

  /** Every plan of fewer than `d` actions ends in a state of `E`. */
  ghost predicate ShorterIn<S, A(!new)>(P: Problem<S, A>, E: set<S>, d: nat) {
    forall p :: Run(P, Start(P), p).Some? && |p| < d ==> Run(P, Start(P), p).value.state in E
  }

  /** Some node of the frontier holds `s` at depth `d`. */
  ghost predicate QueuedAt<S, A>(q: seq<Node<S, A>>, s: S, d: nat) {
    exists i :: 0 <= i < |q| && q[i].depth == d && q[i].state == s
  }

  /** Every plan of exactly `d` actions ends in a state of `E` or at a node
      of depth `d` on the frontier. */
  ghost predicate LevelIn<S, A(!new)>(P: Problem<S, A>, E: set<S>, q: seq<Node<S, A>>, d: nat) {
    forall p :: Run(P, Start(P), p).Some? && |p| == d ==>
      Run(P, Start(P), p).value.state in E || QueuedAt(q, Run(P, Start(P), p).value.state, d)
  }

  /** The frontier of breadth-first search in level order, with the head at
      depth `d`: depths never decrease along the queue and span at most one
      level, every shorter plan ends in an expanded state, and every plan of
      `d` actions ends in an expanded state or at a queued node of depth `d`. */
  ghost predicate LevelOrder<S, A(!new)>(P: Problem<S, A>, E: set<S>, q: seq<Node<S, A>>) {
    q != [] ==>
      && (forall i, j :: 0 <= i < j < |q| ==> q[i].depth <= q[j].depth)
      && (forall i :: 0 <= i < |q| ==> q[i].depth <= q[0].depth + 1)
      && ShorterIn(P, E, q[0].depth)
      && LevelIn(P, E, q, q[0].depth)
  }

  /** The queue holding only the root is in level order. */
  lemma LevelInit<S, A(!new)>(P: Problem<S, A>)
    ensures LevelOrder(P, {}, [Root(P)])
  {
    forall p | Run(P, Start(P), p).Some? && |p| == 0
      ensures QueuedAt([Root(P)], Run(P, Start(P), p).value.state, 0)
    {
      assert p == [];
      assert [Root(P)][0].state == Run(P, Start(P), p).value.state;
    }
  }

  /** The queued children of an expansion are one level below the expanded node. */
  lemma {:induction false} FreshChildrenDepth<S, A>(P: Problem<S, A>, n: Node<S, A>, acts: seq<A>, skip: set<S>)
    requires forall a :: a in acts ==> P.result(n.state, a).Some?
    ensures forall c :: c in FreshChildren(P, n, acts, skip) ==> c.depth == n.depth + 1
    decreases |acts|
  {
    if acts != [] {
      var init := acts[..|acts| - 1];
      assert forall a :: a in init ==> a in acts;
      FreshChildrenDepth(P, n, init, skip);
    }
  }

  /** The depths of the queue after polling the head at depth `d` and
      appending nodes of depth `d + 1`: still in order, within one level. */
  lemma LevelSorted<S, A>(q: seq<Node<S, A>>, kids: seq<Node<S, A>>)
    requires q != []
    requires forall i, j :: 0 <= i < j < |q| ==> q[i].depth <= q[j].depth
    requires forall i :: 0 <= i < |q| ==> q[i].depth <= q[0].depth + 1
    requires forall c :: c in kids ==> c.depth == q[0].depth + 1
    ensures forall i :: 0 <= i < |q[1..] + kids| ==>
      q[0].depth <= (q[1..] + kids)[i].depth <= q[0].depth + 1
    ensures forall i, j :: 0 <= i < j < |q[1..] + kids| ==> (q[1..] + kids)[i].depth <= (q[1..] + kids)[j].depth
  {
    var q' := q[1..] + kids;
    forall i | 0 <= i < |q'|
      ensures q[0].depth <= q'[i].depth <= q[0].depth + 1
    {
      if i < |q| - 1 {
        assert q'[i] == q[i + 1];
      } else {
        assert q'[i] in kids;
      }
    }
    forall i, j | 0 <= i < j < |q'|
      ensures q'[i].depth <= q'[j].depth
    {
      if j < |q| - 1 {
        assert q'[i] == q[i + 1] && q'[j] == q[j + 1];
      } else {
        assert q'[j] in kids;
      }
    }
  }

  /** After the step, the plans shorter than the new head's depth end in an
      expanded state: a plan as long as the old head's depth could only end
      at the old head, which is now expanded. */
  lemma LevelShorter<S, A(!new)>(P: Problem<S, A>, E: set<S>, q: seq<Node<S, A>>, kids: seq<Node<S, A>>)
    requires q != [] && LevelOrder(P, E, q) && q[1..] + kids != []
    requires forall c :: c in kids ==> c.depth == q[0].depth + 1
    requires q[0].depth <= (q[1..] + kids)[0].depth <= q[0].depth + 1
    ensures ShorterIn(P, E + {q[0].state}, (q[1..] + kids)[0].depth)
  {
    var d := q[0].depth;
    var q' := q[1..] + kids;
    forall p | Run(P, Start(P), p).Some? && |p| < q'[0].depth
      ensures Run(P, Start(P), p).value.state in E + {q[0].state}
    {
      var s := Run(P, Start(P), p).value.state;
      if |p| == d && s !in E {
        var i :| 0 <= i < |q| && q[i].depth == d && q[i].state == s;
        assert i == 0;
      }
    }
  }

  /** After the step, a plan of the new head's depth ends in an expanded
      state or at a queued node of that depth. When the head moves down a
      level, the plan's last step leaves an expanded state, so it ends in an
      expanded state or on the frontier, whose nodes are now all at that depth. */
  lemma LevelNext<S, A(!new)>(P: Problem<S, A>, E: set<S>, q: seq<Node<S, A>>, kids: seq<Node<S, A>>)
    requires q != [] && LevelOrder(P, E, q) && q[1..] + kids != []
    requires forall i :: 0 <= i < |q[1..] + kids| ==>
      q[0].depth <= (q[1..] + kids)[i].depth <= q[0].depth + 1
    requires forall i, j :: 0 <= i < j < |q[1..] + kids| ==> (q[1..] + kids)[i].depth <= (q[1..] + kids)[j].depth
    requires ShorterIn(P, E + {q[0].state}, (q[1..] + kids)[0].depth)
    requires Covered(P, E + {q[0].state}, E + {q[0].state} + StatesOf(q[1..] + kids))
    ensures LevelIn(P, E + {q[0].state}, q[1..] + kids, (q[1..] + kids)[0].depth)
  {
    var d := q[0].depth;
    var q' := q[1..] + kids;
    var E' := E + {q[0].state};
    forall p | Run(P, Start(P), p).Some? && |p| == q'[0].depth
      ensures Run(P, Start(P), p).value.state in E' || QueuedAt(q', Run(P, Start(P), p).value.state, q'[0].depth)
    {
      var s := Run(P, Start(P), p).value.state;
      if q'[0].depth == d {
        if s !in E {
          var i :| 0 <= i < |q| && q[i].depth == d && q[i].state == s;
          if i > 0 {
            assert q'[i - 1] == q[i];
          }
        }
      } else {
        var init := p[..d];
        assert p == init + [p[d]];
        RunSnoc(P, Start(P), init, p[d]);
        var mid := Run(P, Start(P), init).value;
        assert mid.state in E';
        if s !in E' {
          assert s in StatesOf(q');
          var n :| n in q' && n.state == s;
          var k :| 0 <= k < |q'| && q'[k] == n;
        }
      }
    }
  }

  /** Polling the head of a queue in level order, expanding its state and
      appending its children one level below keeps the level order, provided
      every successor of an expanded state is expanded or queued. */
  lemma LevelStep<S, A(!new)>(P: Problem<S, A>, E: set<S>, q: seq<Node<S, A>>, kids: seq<Node<S, A>>)
    requires q != [] && LevelOrder(P, E, q)
    requires forall c :: c in kids ==> c.depth == q[0].depth + 1
    requires Covered(P, E + {q[0].state}, E + {q[0].state} + StatesOf(q[1..] + kids))
    ensures LevelOrder(P, E + {q[0].state}, q[1..] + kids)
  {
    LevelSorted(q, kids);
    if q[1..] + kids != [] {
      LevelShorter(P, E, q, kids);
      LevelNext(P, E, q, kids);
    }
  }

  /** A goal node at the head of a queue in level order, with no expanded
      state a goal, has a path of fewest actions. */
  lemma LevelGoal<S, A(!new)>(P: Problem<S, A>, E: set<S>, q: seq<Node<S, A>>)
    requires q != [] && LevelOrder(P, E, q) && ValidNode(P, q[0])
    requires forall s :: s in E ==> !P.isGoal(s)
    ensures forall plan :: ReachesGoal(P, plan) ==> |PathOf(q[0])| <= |plan|
  {
    NodePlan(P, q[0]);
  }
}
