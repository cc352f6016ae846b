/** The small string helpers that build a workout's description. */
module Text {

  predicate IsDigit(c: char) {
    '0' <= c <= '9'
  }

  /** The ASCII digit for a value below ten. */
  function Digit(d: nat): (c: char)
    requires d < 10
    ensures IsDigit(c) && c as int - '0' as int == d
  {
    ('0' as int + d) as char
  }

  function DigitValue(c: char): nat {
    if IsDigit(c) then c as int - '0' as int else 0
  }

  /** Decimal notation of a natural number, as a template literal shows it. */
  function Decimal(n: nat): (r: string)
    ensures |r| > 0
    ensures forall i :: 0 <= i < |r| ==> IsDigit(r[i])
    decreases n
  {
    if n < 10 then [Digit(n)] else Decimal(n / 10) + [Digit(n % 10)]
  }

  /** Reads a string of decimal digits back as a number. */
  function ParseDecimal(s: string): nat
    decreases |s|
  {
    if s == [] then 0 else ParseDecimal(s[..|s| - 1]) * 10 + DigitValue(s[|s| - 1])
  }

  lemma {:induction false} ParseDecimalOfDecimal(n: nat)
    ensures ParseDecimal(Decimal(n)) == n
    decreases n
  {
    if n >= 10 {
      var s := Decimal(n / 10);
      assert (s + [Digit(n % 10)])[..|s|] == s;
      ParseDecimalOfDecimal(n / 10);
    }
  }

  /** Different numbers are written differently. */
  lemma DecimalInjective(m: nat, n: nat)
    requires Decimal(m) == Decimal(n)
    ensures m == n
  {
    ParseDecimalOfDecimal(m);
    ParseDecimalOfDecimal(n);
  }

  /** `String.prototype.toUpperCase` restricted to one character of the Latin alphabet. */
  function UpperCase(c: char): (u: char)
    ensures 'a' <= c <= 'z' ==> 'A' <= u <= 'Z' && u as int - 'A' as int == c as int - 'a' as int
    ensures !('a' <= c <= 'z') ==> u == c
  {
    if 'a' <= c <= 'z' then (c as int - 'a' as int + 'A' as int) as char else c
  }

  /** `s[0].toUpperCase()` followed by `s.slice(1)`. */
  function Capitalize(s: string): (r: string)
    requires |s| > 0
    ensures |r| == |s| && r[0] == UpperCase(s[0]) && r[1..] == s[1..]
  {
    [UpperCase(s[0])] + s[1..]
  }

  /** Position of the first space in `s`, or `|s|` when there is none. */
  function SpaceIndex(s: string): nat
  {
    if s == [] || s[0] == ' ' then 0 else 1 + SpaceIndex(s[1..])
  }

  lemma {:induction false} SpaceIndexOfJoin(a: string, b: string)
    requires ' ' !in a
    ensures SpaceIndex(a + " " + b) == |a|
  {
    if a != [] {
      assert (a + " " + b)[1..] == a[1..] + " " + b;
      SpaceIndexOfJoin(a[1..], b);
    }
  }

  /** Two strings each joined by one space to a tail split back the same way
      when neither head contains a space. */
  lemma SplitAtSpace(a: string, b: string, c: string, d: string)
    requires ' ' !in a && ' ' !in c
    requires a + " " + b == c + " " + d
    ensures a == c && b == d
  {
    var s := a + " " + b;
    SpaceIndexOfJoin(a, b);
    SpaceIndexOfJoin(c, d);
    assert a == s[..|a|] == s[..|c|] == c;
    assert b == s[|a| + 1..] == d;
  }
}
