/** The search strategies of src/main/java/code/Strategy.java. */
module Strategies {
  import opened Wrappers
  import opened JavaText

  datatype Strategy = BF | DF | ID | UC | GR1 | GR2 | AS1 | AS2

  const AllStrategies: seq<Strategy> := [BF, DF, ID, UC, GR1, GR2, AS1, AS2]

  /** `name()`: the constant's identifier. */
  function Name(x: Strategy): string {
    match x
    case BF => "BF"
    case DF => "DF"
    case ID => "ID"
    case UC => "UC"
    case GR1 => "GR1"
    case GR2 => "GR2"
    case AS1 => "AS1"
    case AS2 => "AS2"
  }

  /** `valueOf`: the constant with exactly this name. */
  function ValueOf(s: string): (r: Result<Strategy>)
    ensures r.Success? ==> Name(r.value) == s
  {
    if s == "BF" then Success(BF)
    else if s == "DF" then Success(DF)
    else if s == "ID" then Success(ID)
    else if s == "UC" then Success(UC)
    else if s == "GR1" then Success(GR1)
    else if s == "GR2" then Success(GR2)
    else if s == "AS1" then Success(AS1)
    else if s == "AS2" then Success(AS2)
    else Failure("No enum constant Strategy." + s)
  }

  /** `fromString`: `valueOf` of the upper-cased text. */
  function FromString(s: string): Result<Strategy> {
    ValueOf(Upper(s))
  }

  /** `getDisplayName`. */
  function DisplayName(x: Strategy): string {
    match x
    case BF => "BFS"
    case DF => "DFS"
    case ID => "Iterative Deepening"
    case UC => "Uniform Cost"
    case GR1 => "Greedy (H1)"
    case GR2 => "Greedy (H2)"
    case AS1 => "A* (H1)"
    case AS2 => "A* (H2)"
  }

  /** Every constant is listed once. */
  lemma AllListed(x: Strategy)
    ensures x in AllStrategies
    ensures forall i, j :: 0 <= i < j < |AllStrategies| ==> AllStrategies[i] != AllStrategies[j]
  {
  }

  /** `valueOf(x.name()) == x`. */
  lemma ValueOfName(x: Strategy)
    ensures ValueOf(Name(x)) == Success(x)
  {
  }

  /** `fromString(x.name()) == x`, and in lower case too. */
  lemma NameRoundTrip(x: Strategy)
    ensures FromString(Name(x)) == Success(x)
    ensures FromString(Lower(Name(x))) == Success(x)
  {
    UpperOfLower(Name(x));
    NameIsUpper(x);
    ValueOfName(x);
  }

  /** Names are already upper case. */
  lemma NameIsUpper(x: Strategy)
    ensures Upper(Name(x)) == Name(x)
  {
    var n := Name(x);
    forall i | 0 <= i < |n|
      ensures UpperChar(n[i]) == n[i]
    {
      assert 'A' <= n[i] <= 'Z' || '0' <= n[i] <= '9';
    }
  }

  /** `fromString` accepts exactly the strings whose upper case is a name,
      and returns that constant. */
  lemma FromStringExact(s: string, x: Strategy)
    ensures FromString(s) == Success(x) <==> Upper(s) == Name(x)
  {
    if Upper(s) == Name(x) {
      ValueOfName(x);
    }
  }

  /** Strings that agree up to case parse alike. */
  lemma FromStringIgnoresCase(s: string, t: string)
    requires Lower(s) == Lower(t)
    ensures FromString(s) == FromString(t)
  {
    UpperOfLower(s);
    UpperOfLower(t);
  }

  /** Any other string is rejected. */
  lemma FromStringRejects(s: string)
    requires forall x :: Upper(s) != Name(x)
    ensures FromString(s).Failure?
  {
    assert Upper(s) != Name(BF) && Upper(s) != Name(DF) && Upper(s) != Name(ID) && Upper(s) != Name(UC);
    assert Upper(s) != Name(GR1) && Upper(s) != Name(GR2) && Upper(s) != Name(AS1) && Upper(s) != Name(AS2);
  }

  /** Distinct constants have distinct display names. */
  lemma DisplayNamesDistinct(x: Strategy, y: Strategy)
    ensures DisplayName(x) == DisplayName(y) <==> x == y
  {
  }

  /** The example of a non-ASCII spelling: dotless i upper-cases to I. */
  lemma DotlessI()
    ensures FromString("ıd") == Success(ID)
  {
    assert Upper("ıd") == "ID";
  }
}
