/** Why the Manhattan estimates of the grid are admissible: on a grid where
    every step costs at least the Manhattan distance it covers, no plan to
    the goal costs less than the Manhattan distance to it. */
module GridDistance {
  import opened Costs
  import opened SearchModel
  import opened InformedSearch
  import opened Grid

  /** Every offered step costs at least the Manhattan distance it covers (an
      infinite cost always does). */
  ghost predicate StepsCoverDistance<A>(P: Problem<State, A>, U: set<State>) {
    forall s, a :: s in U && a in P.actions(s) && P.result(s, a).Some? ==>
      Le(Fin(Manhattan(s, P.result(s, a).value)), P.stepCost(s, a, P.result(s, a).value))
  }

  /** Replaying a plan from `s` at cost `c` ends at a cost of at least `c`
      plus the Manhattan distance from `s` to where it ends. */
  lemma {:induction false} RunCoversDistance<A>(P: Problem<State, A>, U: set<State>, s: State, c: Cost, plan: seq<A>)
    requires Closed(P, U) && StepsCoverDistance(P, U) && s in U
    requires Run(P, Arrival(s, c), plan).Some?
    ensures Le(Add(c, Fin(Manhattan(s, Run(P, Arrival(s, c), plan).value.state))), Run(P, Arrival(s, c), plan).value.cost)
    decreases |plan|
  {
    var end := Run(P, Arrival(s, c), plan).value;
    if plan == [] {
      ManhattanZero(s, s);
    } else {
      var a := plan[0];
      var t := P.result(s, a).value;
      var sc := P.stepCost(s, a, t);
      assert Run(P, Arrival(s, c), plan) == Run(P, Arrival(t, Add(c, sc)), plan[1..]);
      RunCoversDistance(P, U, t, Add(c, sc), plan[1..]);
      ManhattanTriangle(s, t, end.state);
    }
  }

  /** The Manhattan distance to `g` is admissible when `g` is the only goal
      state of the universe. */
  lemma ManhattanAdmissible<A(!new)>(P: Problem<State, A>, U: set<State>, g: State)
    requires Closed(P, U) && StepsCoverDistance(P, U)
    requires forall s :: s in U && P.isGoal(s) ==> s == g
    ensures Admissible(P, s => Manhattan(s, g), U)
  {
    forall s, plan | s in U && Run(P, Arrival(s, Fin(0)), plan).Some? && P.isGoal(Run(P, Arrival(s, Fin(0)), plan).value.state)
      ensures Le(Fin(Manhattan(s, g)), Run(P, Arrival(s, Fin(0)), plan).value.cost)
    {
      RunStaysInUniverse(P, U, Arrival(s, Fin(0)), plan);
      RunCoversDistance(P, U, s, Fin(0), plan);
    }
  }

  /** A non-negative estimate below an admissible one is admissible. */
  lemma AdmissibleBelow<S, A(!new)>(P: Problem<S, A>, U: set<S>, h: S -> int, h': S -> int)
    requires Admissible(P, h', U)
    requires forall s :: s in U ==> 0 <= h(s) <= h'(s)
    ensures Admissible(P, h, U)
  {
  }
}
