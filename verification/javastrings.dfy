/** The parts of `java.lang.String` and `java.lang.Integer` that the log
    manager relies on: lexicographic `compareTo`, the polynomial `hashCode`
    with 32-bit wrap-around, `Integer.parseInt` on short fields and the
    decimal rendering done by `StringBuilder.append(int)`. A string is a
    sequence of Unicode scalar values rather than UTF-16 code units, and
    only ASCII digits count as digits. */
module JavaStrings {
  import opened Outcomes

  const MIN_INT: int := -0x8000_0000
  const MAX_INT: int := 0x7fff_ffff

  /** Two's-complement truncation of an unbounded integer to a Java `int`. */
  function Wrap32(x: int): (r: int)
    ensures MIN_INT <= r <= MAX_INT
    ensures (r - x) % 0x1_0000_0000 == 0
  {
    (x - MIN_INT) % 0x1_0000_0000 + MIN_INT
  }

  /** `a.compareTo(b)`: the difference of the first differing characters,
      or of the lengths when one string is a prefix of the other. */
  function CompareStrings(a: string, b: string): (r: int)
    ensures r == 0 <==> a == b
  {
    if |a| == 0 || |b| == 0 then |a| - |b|
    else if a[0] != b[0] then a[0] as int - b[0] as int
    else
      assert a == [a[0]] + a[1..] && b == [b[0]] + b[1..];
      CompareStrings(a[1..], b[1..])
  }

  lemma {:induction false} CompareStringsAntisymmetric(a: string, b: string)
    ensures CompareStrings(a, b) == -CompareStrings(b, a)
  {
    if |a| == 0 || |b| == 0 {
    } else if a[0] != b[0] {
    } else {
      CompareStringsAntisymmetric(a[1..], b[1..]);
    }
  }

  lemma {:induction false} CompareStringsTransitive(a: string, b: string, d: string)
    requires CompareStrings(a, b) <= 0 && CompareStrings(b, d) <= 0
    ensures CompareStrings(a, d) <= 0
  {
    if |a| == 0 || |b| == 0 || |d| == 0 {
    } else if a[0] != b[0] || b[0] != d[0] {
    } else {
      CompareStringsTransitive(a[1..], b[1..], d[1..]);
    }
  }

  /** `s.hashCode()`: s[0]*31^(n-1) + ... + s[n-1], computed in `int`. */
  function HashString(s: string): (h: int)
    ensures MIN_INT <= h <= MAX_INT
  {
    if |s| == 0 then 0
    else Wrap32(31 * HashString(s[..|s| - 1]) + s[|s| - 1] as int)
  }

  predicate IsDigit(ch: char) {
    '0' <= ch <= '9'
  }

  predicate AllDigits(s: string) {
    forall i :: 0 <= i < |s| ==> IsDigit(s[i])
  }

  /** The value of a string of decimal digits, most significant first. */
  function DigitsValue(s: string): (v: nat)
    requires AllDigits(s)
  {
    if |s| == 0 then 0
    else DigitsValue(s[..|s| - 1]) * 10 + (s[|s| - 1] as int - '0' as int)
  }

  /** `Integer.parseInt(s)`: an optional sign followed by at least one digit,
      and a result inside the `int` range; anything else is a
      NumberFormatException, modelled as `None`. */
  function ParseInt(s: string): (r: Option<int>)
    ensures r.Some? ==> MIN_INT <= r.value <= MAX_INT
  {
    if |s| == 0 then None
    else if s[0] == '-' || s[0] == '+' then
      if |s| == 1 || !AllDigits(s[1..]) then None
      else
        var v: int := if s[0] == '-' then 0 - DigitsValue(s[1..]) as int else DigitsValue(s[1..]);
        if MIN_INT <= v <= MAX_INT then Some(v) else None
    else if !AllDigits(s) then None
    else if DigitsValue(s) <= MAX_INT then Some(DigitsValue(s))
    else None
  }

  /** The decimal digits of a natural number, without leading zeros. */
  function NatToString(n: nat): (s: string)
    ensures |s| > 0 && AllDigits(s)
    ensures DigitsValue(s) == n
    ensures s[0] != '0' || n == 0
  {
    var d := ['0' + (n % 10) as char];
    if n < 10 then d
    else
      var p := NatToString(n / 10);
      assert (p + d)[..|p + d| - 1] == p;
      p + d
  }

  /** `StringBuilder.append(int)`: optional minus sign, then the digits. */
  function IntToString(n: int): (s: string)
  {
    if n < 0 then "-" + NatToString(-n) else NatToString(n)
  }

  /** Rendering an `int` and parsing it back gives the same number. */
  lemma IntToStringRoundTrip(n: int)
    requires MIN_INT <= n <= MAX_INT
    ensures ParseInt(IntToString(n)) == Some(n)
  {
    if n < 0 {
      var s := IntToString(n);
      assert s[1..] == NatToString(-n);
    }
  }
}
