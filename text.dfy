/** Character and string helpers used by the rules: .NET's notion of a blank
    string, ASCII lower-casing, substring search and number rendering. */
module Text {

  /** `char.IsWhiteSpace` of .NET: the Unicode space separators, the line and
      paragraph separators, U+0009..U+000D and U+0085. */
  predicate IsWhiteSpace(c: char) {
    || ('\t' <= c <= '\r')
    || c == ' '
    || c == '\U{0085}'
    || c == '\U{00A0}'
    || c == '\U{1680}'
    || ('\U{2000}' <= c <= '\U{200A}')
    || c == '\U{2028}'
    || c == '\U{2029}'
    || c == '\U{202F}'
    || c == '\U{205F}'
    || c == '\U{3000}'
  }

  /** `string.IsNullOrWhiteSpace` for a non-null string: empty or only white space. */
  predicate IsBlank(s: string) {
    forall i :: 0 <= i < |s| ==> IsWhiteSpace(s[i])
  }

  /** Lower-casing of one character; only the ASCII letters are mapped. */
  function LowerChar(c: char): (r: char)
    ensures 'A' <= c <= 'Z' ==> r as int == c as int + 32
    ensures !('A' <= c <= 'Z') ==> r == c
    ensures !('A' <= r <= 'Z')
  {
    if 'A' <= c <= 'Z' then (c as int + 32) as char else c
  }

  function Lower(s: string): (r: string)
    ensures |r| == |s|
    ensures forall i :: 0 <= i < |s| ==> r[i] == LowerChar(s[i])
  {
    seq(|s|, i requires 0 <= i < |s| => LowerChar(s[i]))
  }

  /** Lower-casing twice is lower-casing once. */
  lemma LowerIdempotent(s: string)
    ensures Lower(Lower(s)) == Lower(s)
  {
    assert forall i :: 0 <= i < |s| ==> LowerChar(LowerChar(s[i])) == LowerChar(s[i]);
  }

  /** `sub` occurs in `s` at position `i`. */
  predicate OccursAt(s: string, sub: string, i: nat) {
    i + |sub| <= |s| && s[i..i + |sub|] == sub
  }

  /** JavaScript's `s.includes(sub)`. */
  predicate Contains(s: string, sub: string) {
    exists i: nat :: i <= |s| && OccursAt(s, sub, i)
  }

  lemma ContainsEmpty(s: string)
    ensures Contains(s, "")
  {
    assert OccursAt(s, "", 0);
  }

  predicate AllDigits(s: string) {
    forall i :: 0 <= i < |s| ==> '0' <= s[i] <= '9'
  }

  function DigitChar(d: nat): (c: char)
    requires d < 10
    ensures '0' <= c <= '9'
    ensures c as int - '0' as int == d
  {
    ('0' as int + d) as char
  }

  /** The number a string of decimal digits denotes, read most significant
      digit first; the reader the renderings below are checked against. */
  function DecimalValue(s: string): nat
    requires AllDigits(s)
    decreases |s|
  {
    if s == [] then 0
    else DecimalValue(s[..|s| - 1]) * 10 + (s[|s| - 1] as int - '0' as int)
  }

  /** Decimal rendering of a natural number, without leading zeros: the digits
      read back as `n`, and the first digit is '0' only for zero itself. */
  function NatToString(n: nat): (r: string)
    ensures |r| >= 1 && AllDigits(r)
    ensures DecimalValue(r) == n
    ensures r[0] == '0' <==> n == 0
    ensures n < 10 <==> |r| == 1
    decreases n
  {
    if n < 10 then [DigitChar(n)]
    else
      var prefix := NatToString(n / 10);
      var r := prefix + [DigitChar(n % 10)];
      assert r[..|r| - 1] == prefix;
      r
  }

  /** Decimal rendering of an integer, with a leading '-' when negative
      (C#'s `{n}` interpolation of an int): the digits after the sign read
      back as the magnitude. */
  function IntToString(n: int): (r: string)
    ensures |r| >= 1
    ensures n < 0 <==> r[0] == '-'
    ensures n >= 0 ==> AllDigits(r) && DecimalValue(r) == n
    ensures n < 0 ==> AllDigits(r[1..]) && DecimalValue(r[1..]) == -n
  {
    if n < 0 then
      var digits := NatToString(-n);
      assert ("-" + digits)[1..] == digits;
      "-" + digits
    else NatToString(n)
  }

  lemma TwoDigitsValue(d: nat)
    requires d < 100
    ensures DecimalValue([DigitChar(d / 10), DigitChar(d % 10)]) == d
  {
    var cs := [DigitChar(d / 10), DigitChar(d % 10)];
    assert cs[..1] == [cs[0]];
    assert [cs[0]][..0] == [];
    assert DecimalValue([cs[0]]) == d / 10;
    assert DecimalValue(cs) == (d / 10) * 10 + d % 10;
  }

  /** Where the parts of `sign + whole + "." + cents` lie. */
  lemma DecimalLayout(sign: string, whole: string, cents: string)
    requires |whole| >= 1 && |cents| == 2
    ensures var r := sign + whole + "." + cents;
      && |r| == |sign| + |whole| + 3
      && r[0] == (if sign == [] then whole[0] else sign[0])
      && r[|sign|..|r| - 3] == whole
      && r[|r| - 3] == '.'
      && r[|r| - 2..] == cents
  {
    var r := sign + whole + "." + cents;
    assert r == (sign + whole) + ("." + cents);
  }

  /** An amount of hundredths written with two decimals, as `decimal(5,2)`
      values are written (`8.50`, `-0.25`): an optional '-', the whole part,
      a '.', and exactly two digits holding the remainder. */
  function HundredthsToString(h: int): (r: string)
    ensures |r| >= 4
    ensures h < 0 <==> r[0] == '-'
    ensures r[|r| - 3] == '.'
    ensures var start := if h < 0 then 1 else 0;
      var m := if h < 0 then -h else h;
      && start < |r| - 3
      && AllDigits(r[start..|r| - 3]) && DecimalValue(r[start..|r| - 3]) == m / 100
      && AllDigits(r[|r| - 2..]) && DecimalValue(r[|r| - 2..]) == m % 100
  {
    var m := if h < 0 then -h else h;
    var sign := if h < 0 then "-" else "";
    var whole := NatToString(m / 100);
    var cents := [DigitChar(m % 100 / 10), DigitChar(m % 100 % 10)];
    DecimalLayout(sign, whole, cents);
    TwoDigitsValue(m % 100);
    sign + whole + "." + cents
  }
}
