/** The truck actions of backend/src/main/java/code/Action.java. */
module Actions {
  import opened Wrappers
  import opened JavaText

  datatype Action = Up | Down | Left | Right | Tunnel

  /** `toString`: the display name. */
  function ToString(a: Action): string {
    match a
    case Up => "up"
    case Down => "down"
    case Left => "left"
    case Right => "right"
    case Tunnel => "tunnel"
  }

  /** `fromString`: match the lower-cased text against the display names. */
  function FromString(s: string): (r: Result<Action>)
  {
    var l := Lower(s);
    if l == "up" then Success(Up)
    else if l == "down" then Success(Down)
    else if l == "left" then Success(Left)
    else if l == "right" then Success(Right)
    else if l == "tunnel" then Success(Tunnel)
    else Failure("Unknown action: " + s)
  }

  /** Display names are lower case, distinct, and contain no separator of
      the result format. */
  lemma NamesDistinct(a: Action, b: Action)
    ensures ToString(a) == ToString(b) <==> a == b
    ensures Lower(ToString(a)) == ToString(a)
    ensures ',' !in ToString(a) && ';' !in ToString(a) && ToString(a) != ""
  {
  }

  /** `fromString(a.toString()) == a`. */
  lemma RoundTrip(a: Action)
    ensures FromString(ToString(a)) == Success(a)
  {
    assert Lower(ToString(a)) == ToString(a);
  }

  /** `fromString` accepts exactly the strings whose lower case is a name. */
  lemma FromStringExact(s: string, a: Action)
    ensures FromString(s) == Success(a) <==> Lower(s) == ToString(a)
  {
  }

  /** Case does not matter. */
  lemma FromStringIgnoresCase(s: string, t: string)
    requires Lower(s) == Lower(t)
    ensures FromString(s) == FromString(t) || (FromString(s).Failure? && FromString(t).Failure?)
  {
  }

  /** Any other string is rejected. */
  lemma FromStringRejects(s: string)
    requires forall a :: Lower(s) != ToString(a)
    ensures FromString(s).Failure?
  {
    assert Lower(s) != ToString(Up) && Lower(s) != ToString(Down) && Lower(s) != ToString(Left);
    assert Lower(s) != ToString(Right) && Lower(s) != ToString(Tunnel);
  }

  /** The movement actions, in the order `actions` offers them. */
  const Moves: seq<Action> := [Up, Down, Left, Right]
}
