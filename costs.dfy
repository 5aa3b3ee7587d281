/** Path costs. The Java code keeps costs in a `double`, but every value it
    ever stores is an integer or positive infinity, so a cost is an integer
    or the infinity sentinel. */
module Costs {

  datatype Cost = Fin(v: int) | Inf

  /** Addition of doubles restricted to integers and +infinity. */
  function Add(a: Cost, b: Cost): (r: Cost)
    ensures r.Fin? <==> a.Fin? && b.Fin?
    ensures r.Fin? ==> r.v == a.v + b.v
  {
    if a.Fin? && b.Fin? then Fin(a.v + b.v) else Inf
  }

  /** `a <= b` on doubles. */
  predicate Le(a: Cost, b: Cost) {
    b.Inf? || (a.Fin? && a.v <= b.v)
  }

  /** `a < b` on doubles. */
  predicate Lt(a: Cost, b: Cost) {
    a.Fin? && (b.Inf? || a.v < b.v)
  }

  /** `Math.min(a, b)`. */
  function Min(a: Cost, b: Cost): (r: Cost)
    ensures Le(r, a) && Le(r, b)
    ensures r == a || r == b
  {
    if Le(a, b) then a else b
  }

  predicate NonNegative(c: Cost) {
    c.Inf? || c.v >= 0
  }

  lemma LtIsNotLe(a: Cost, b: Cost)
    ensures Lt(a, b) <==> !Le(b, a)
  {
  }

  lemma AddMonotone(a: Cost, b: Cost, c: Cost)
    requires Le(a, b)
    ensures Le(Add(a, c), Add(b, c))
  {
  }

  lemma AddNonNegative(a: Cost, b: Cost)
    requires NonNegative(b)
    ensures Le(a, Add(a, b))
  {
  }
}
