/** Grid coordinates. The `State` class of the repository is not part of
    this model; it is an immutable integer pair compared structurally. */
module Grid {

  datatype State = State(x: int, y: int)

  /** `Math.abs`, written as a recursion so that the verifier unfolds it
      only where a proof asks for its value (through `AbsValue`). */
  function Abs(a: int): nat
    decreases if a < 0 then 1 else 0
  {
    if a < 0 then Abs(-a) else a
  }

  lemma AbsValue(a: int)
    ensures Abs(a) == if a < 0 then -a else a
  {
  }

  /** `|x1 - x2| + |y1 - y2|`. */
  function Manhattan(a: State, b: State): nat {
    Abs(a.x - b.x) + Abs(a.y - b.y)
  }

  /** The distance is 0 exactly between equal states. */
  lemma ManhattanZero(a: State, b: State)
    ensures Manhattan(a, b) == 0 <==> a == b
  {
    AbsValue(a.x - b.x);
    AbsValue(a.y - b.y);
  }

  lemma ManhattanSymmetric(a: State, b: State)
    ensures Manhattan(a, b) == Manhattan(b, a)
  {
    AbsValue(a.x - b.x);
    AbsValue(a.y - b.y);
    AbsValue(b.x - a.x);
    AbsValue(b.y - a.y);
  }

  lemma ManhattanTriangle(a: State, b: State, c: State)
    ensures Manhattan(a, c) <= Manhattan(a, b) + Manhattan(b, c)
  {
    AbsValue(a.x - c.x);
    AbsValue(a.y - c.y);
    AbsValue(a.x - b.x);
    AbsValue(a.y - b.y);
    AbsValue(b.x - c.x);
    AbsValue(b.y - c.y);
  }
}
