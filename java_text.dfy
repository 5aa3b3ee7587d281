/** The pieces of `java.lang.String` and `java.lang.Integer` that the
    parsers and serialisers of the delivery planner rely on: `split` with a
    one-character separator, `Integer.parseInt`, `Integer.toString`,
    `String.join`, `trim`, `startsWith` and case mapping. */
module JavaText {
  import opened Wrappers

  const MinInt: int := -0x8000_0000
  const MaxInt: int := 0x7fff_ffff

  predicate InInt32(v: int) {
    MinInt <= v <= MaxInt
  }

  /** Two's-complement wrap-around of `int` arithmetic. */
  function Wrap32(v: int): (r: int)
    ensures InInt32(r) && (r - v) % 0x1_0000_0000 == 0
    ensures InInt32(v) ==> r == v
  {
    var m := v % 0x1_0000_0000;
    if m > MaxInt then m - 0x1_0000_0000 else m
  }

  /** The `(int)` cast of a double holding an integer value: saturation at
      the ends of the 32-bit range. */
  function SaturateInt(v: int): (r: int)
    ensures InInt32(r)
    ensures InInt32(v) ==> r == v
    ensures v < MinInt ==> r == MinInt
    ensures v > MaxInt ==> r == MaxInt
  {
    if v < MinInt then MinInt else if v > MaxInt then MaxInt else v
  }

  // ------------------------------------------------------------------
  // Case mapping

  /** `Character.toUpperCase` on the characters whose upper case is ASCII:
      the ASCII letters, dotless i (U+0131) and long s (U+017F). */
  function UpperChar(c: char): char {
    if 'a' <= c <= 'z' then (c as int - 32) as char
    else if c == 'ı' then 'I'
    else if c == 'ſ' then 'S'
    else c
  }

  /** `Character.toLowerCase` on ASCII letters. */
  function LowerChar(c: char): char {
    if 'A' <= c <= 'Z' then (c as int + 32) as char else c
  }

  function Upper(s: string): string {
    seq(|s|, i requires 0 <= i < |s| => UpperChar(s[i]))
  }

  function Lower(s: string): string {
    seq(|s|, i requires 0 <= i < |s| => LowerChar(s[i]))
  }

  /** Upper-casing forgets the case of ASCII letters. */
  lemma UpperOfLower(s: string)
    ensures Upper(Lower(s)) == Upper(s)
  {
  }

  /** Upper-casing is idempotent and keeps the length. */
  lemma UpperIdempotent(s: string)
    ensures Upper(Upper(s)) == Upper(s) && |Upper(s)| == |s|
  {
  }

  /** Lower-casing is idempotent and keeps the length. */
  lemma LowerIdempotent(s: string)
    ensures Lower(Lower(s)) == Lower(s) && |Lower(s)| == |s|
  {
  }

  // ------------------------------------------------------------------
  // split

  /** Every field between separators, empty ones included. */
  function Fields(s: string, sep: char): (r: seq<string>)
    ensures |r| >= 1
    ensures forall i :: 0 <= i < |r| ==> sep !in r[i]
    decreases |s|
  {
    if |s| == 0 then [""]
    else
      var rest := Fields(s[1..], sep);
      if s[0] == sep then [""] + rest
      else [[s[0]] + rest[0]] + rest[1..]
  }

  /** `String.join`. */
  function Join(parts: seq<string>, sep: char): string
    decreases |parts|
  {
    if |parts| == 0 then ""
    else if |parts| == 1 then parts[0]
    else parts[0] + [sep] + Join(parts[1..], sep)
  }

  /** Joining one more part adds a separator and the part. */
  lemma {:induction false} JoinSnoc(parts: seq<string>, last: string, sep: char)
    requires |parts| > 0
    ensures Join(parts + [last], sep) == Join(parts, sep) + [sep] + last
    decreases |parts|
  {
    if |parts| > 1 {
      JoinSnoc(parts[1..], last, sep);
      assert (parts + [last])[1..] == parts[1..] + [last];
    } else {
      assert (parts + [last])[1..] == [last];
    }
  }

  /** A character outside every part and other than the separator is not in the join. */
  lemma {:induction false} JoinAvoids(parts: seq<string>, sep: char, c: char)
    requires c != sep && forall i :: 0 <= i < |parts| ==> c !in parts[i]
    ensures c !in Join(parts, sep)
    decreases |parts|
  {
    if |parts| > 1 {
      JoinAvoids(parts[1..], sep, c);
    }
  }

  /** Joining the fields of `s` gives `s` back. */
  lemma {:induction false} JoinFields(s: string, sep: char)
    ensures Join(Fields(s, sep), sep) == s
    decreases |s|
  {
    if |s| > 0 {
      JoinFields(s[1..], sep);
      if s[0] == sep {
        assert s == [sep] + s[1..];
      } else {
        JoinConsField(s[0], Fields(s[1..], sep), sep);
        assert s == [s[0]] + s[1..];
      }
    }
  }

  /** Prepending a character to the first field prepends it to the join. */
  lemma JoinConsField(c: char, rest: seq<string>, sep: char)
    requires |rest| >= 1
    ensures Join([[c] + rest[0]] + rest[1..], sep) == [c] + Join(rest, sep)
  {
    var r := [[c] + rest[0]] + rest[1..];
    assert r[0] == [c] + rest[0] && r[1..] == rest[1..];
    if |rest| > 1 {
      assert Join(r, sep) == ([c] + rest[0]) + [sep] + Join(rest[1..], sep);
    }
  }

  /** The result with trailing empty fields removed. */
  function DropTrailingEmpty(parts: seq<string>): (r: seq<string>)
    ensures r <= parts
    ensures r == [] || r[|r| - 1] != ""
    ensures forall i :: |r| <= i < |parts| ==> parts[i] == ""
    decreases |parts|
  {
    if |parts| == 0 then []
    else if parts[|parts| - 1] == "" then DropTrailingEmpty(parts[..|parts| - 1])
    else parts
  }

  /** `s.split(sep)` for a separator that is not a regular-expression
      metacharacter: with no separator in `s` the result is `[s]` (so
      `"".split(",")` is `[""]`); otherwise trailing empty fields are removed. */
  function Split(s: string, sep: char): (r: seq<string>)
    ensures sep !in s ==> r == [s]
    ensures sep in s ==> r <= Fields(s, sep) && (r == [] || r[|r| - 1] != "")
    ensures forall i :: 0 <= i < |r| ==> sep !in r[i]
  {
    if sep !in s then
      assert Fields(s, sep) == [s] by { OneField(s, sep); }
      [s]
    else DropTrailingEmpty(Fields(s, sep))
  }

  lemma {:induction false} OneField(s: string, sep: char)
    requires sep !in s
    ensures Fields(s, sep) == [s]
    decreases |s|
  {
    if |s| > 0 {
      OneField(s[1..], sep);
      assert s == [s[0]] + s[1..];
    }
  }

  /** Splitting a joined list of separator-free fields, the last one not
      empty, gives the list back. */
  lemma {:induction false} SplitJoin(parts: seq<string>, sep: char)
    requires |parts| >= 1 && parts[|parts| - 1] != ""
    requires forall i :: 0 <= i < |parts| ==> sep !in parts[i]
    ensures Split(Join(parts, sep), sep) == parts
  {
    FieldsJoin(parts, sep);
    if |parts| > 1 {
      JoinHasSeparator(parts, sep);
    }
  }

  lemma JoinHasSeparator(parts: seq<string>, sep: char)
    requires |parts| > 1
    ensures sep in Join(parts, sep)
  {
    assert Join(parts, sep)[|parts[0]|] == sep;
  }

  lemma {:induction false} FieldsJoin(parts: seq<string>, sep: char)
    requires |parts| >= 1
    requires forall i :: 0 <= i < |parts| ==> sep !in parts[i]
    ensures Fields(Join(parts, sep), sep) == parts
    decreases |parts|
  {
    if |parts| == 1 {
      OneField(parts[0], sep);
    } else {
      FieldsJoin(parts[1..], sep);
      FieldsPrefix(parts[0], Join(parts[1..], sep), sep);
    }
  }

  /** A separator-free prefix followed by a separator starts a new field. */
  lemma {:induction false} FieldsPrefix(p: string, rest: string, sep: char)
    requires sep !in p
    ensures Fields(p + [sep] + rest, sep) == [p] + Fields(rest, sep)
    decreases |p|
  {
    if |p| == 0 {
      assert p + [sep] + rest == [sep] + rest;
      assert ([sep] + rest)[1..] == rest;
    } else {
      FieldsPrefix(p[1..], rest, sep);
      assert (p + [sep] + rest)[1..] == p[1..] + [sep] + rest;
      assert p == [p[0]] + p[1..];
    }
  }

  // ------------------------------------------------------------------
  // Integers

  predicate IsDigit(c: char) {
    '0' <= c <= '9'
  }

  predicate AllDigits(s: string) {
    forall i :: 0 <= i < |s| ==> IsDigit(s[i])
  }

  /** The value of a string of decimal digits. */
  function DigitsValue(s: string): nat
    requires AllDigits(s)
    decreases |s|
  {
    if |s| == 0 then 0 else 10 * DigitsValue(s[..|s| - 1]) + (s[|s| - 1] as int - '0' as int)
  }

  /** The decimal digits of `n`, most significant first. */
  function NatDigits(n: nat): (r: string)
    ensures |r| >= 1 && AllDigits(r)
    decreases n
  {
    if n < 10 then [('0' as int + n) as char] else NatDigits(n / 10) + [('0' as int + n % 10) as char]
  }

  /** `Integer.toString`. */
  function IntToString(v: int): (r: string)
    ensures |r| >= 1
  {
    if v < 0 then "-" + NatDigits(-v) else NatDigits(v)
  }

  /** `Integer.parseInt`: an optional sign, then one or more decimal digits,
      with a value in the 32-bit range; anything else is a failure. */
  function ParseInt(s: string): (r: Result<int>)
    ensures r.Success? ==> InInt32(r.value)
  {
    if |s| == 0 then Failure("empty string")
    else if s[0] == '-' then ParseDigits(true, s[1..])
    else if s[0] == '+' then ParseDigits(false, s[1..])
    else ParseDigits(false, s)
  }

  /** The digits after the sign, negated when `negative`. */
  function ParseDigits(negative: bool, digits: string): (r: Result<int>)
    ensures r.Success? ==> InInt32(r.value)
  {
    if |digits| == 0 || !AllDigits(digits) then Failure("not a number")
    else
      var v: int := if negative then -(DigitsValue(digits) as int) else DigitsValue(digits);
      if InInt32(v) then Success(v) else Failure("out of range")
  }

  lemma {:induction false} DigitsRoundTrip(n: nat)
    ensures DigitsValue(NatDigits(n)) == n
    decreases n
  {
    if n >= 10 {
      DigitsRoundTrip(n / 10);
      var d := NatDigits(n);
      assert d[..|d| - 1] == NatDigits(n / 10);
    }
  }

  /** `Integer.parseInt(Integer.toString(v)) == v` on 32-bit values. */
  lemma IntRoundTrip(v: int)
    requires InInt32(v)
    ensures ParseInt(IntToString(v)) == Success(v)
  {
    if v < 0 {
      DigitsRoundTrip(-v);
      if v == MinInt {
        ParseMinInt();
      } else {
        ParseIntAcceptsNegative(NatDigits(-v));
      }
    } else {
      DigitsRoundTrip(v);
      ParseIntAccepts(NatDigits(v));
    }
  }

  /** The one negative value whose magnitude is out of range for a positive `int`. */
  lemma ParseMinInt()
    ensures ParseInt(IntToString(MinInt)) == Success(MinInt)
  {
    DigitsRoundTrip(-MinInt);
    var t := IntToString(MinInt);
    assert t[0] == '-' && t[1..] == NatDigits(-MinInt);
    assert ParseInt(t) == ParseDigits(true, NatDigits(-MinInt));
  }

  /** A string holding a character other than a sign or a digit is rejected. */
  lemma ParseIntRejects(s: string, i: int)
    requires 0 <= i < |s| && !IsDigit(s[i]) && s[i] != '-' && s[i] != '+'
    ensures ParseInt(s).Failure?
  {
    if s[0] == '-' || s[0] == '+' {
      assert s[1..][i - 1] == s[i];
    }
  }

  /** An unsigned digit string in range is accepted with its value. */
  lemma ParseIntAccepts(s: string)
    requires |s| >= 1 && AllDigits(s) && DigitsValue(s) <= MaxInt
    ensures ParseInt(s) == Success(DigitsValue(s) as int)
  {
    assert IsDigit(s[0]);
  }

  /** A negated digit string in range is accepted with its value. */
  lemma ParseIntAcceptsNegative(s: string)
    requires |s| >= 1 && AllDigits(s) && DigitsValue(s) <= MaxInt
    ensures ParseInt("-" + s) == Success(-(DigitsValue(s) as int))
  {
    var t := "-" + s;
    assert t[0] == '-' && t[1..] == s;
    assert ParseInt(t) == ParseDigits(true, s);
  }

  /** `Integer.toString` produces only a sign and digits. */
  lemma IntToStringHasNo(v: int, c: char)
    requires !IsDigit(c) && c != '-'
    ensures c !in IntToString(v)
  {
    var r := IntToString(v);
    forall i | 0 <= i < |r|
      ensures r[i] != c
    {
      if v < 0 && i > 0 {
        assert r[i] == NatDigits(-v)[i - 1];
      }
    }
  }

  // ------------------------------------------------------------------
  // trim and startsWith

  predicate IsSpace(c: char) {
    c <= ' '
  }

  function TrimStart(s: string): (r: string)
    ensures |r| <= |s| && r == s[|s| - |r|..]
    ensures r == [] || !IsSpace(r[0])
    decreases |s|
  {
    if |s| > 0 && IsSpace(s[0]) then TrimStart(s[1..]) else s
  }

  function TrimEnd(s: string): (r: string)
    ensures r <= s
    ensures r == [] || !IsSpace(r[|r| - 1])
    decreases |s|
  {
    if |s| > 0 && IsSpace(s[|s| - 1]) then TrimEnd(s[..|s| - 1]) else s
  }

  /** `String.trim`: drop every character up to U+0020 from both ends. */
  function Trim(s: string): (r: string)
    ensures r == [] || (!IsSpace(r[0]) && !IsSpace(r[|r| - 1]))
  {
    TrimEnd(TrimStart(s))
  }

  predicate StartsWith(s: string, prefix: string) {
    prefix <= s
  }
}
