/** Decimal rendering of the numeric fields: `String.valueOf(int)` for seasons
    and year, and the one-decimal rendering of a rating held in tenths (what
    both `String.format("%.1f")` and `Double.toString` print for such a value),
    together with the parsers that invert them, and the integer minimum the
    `limit` calls use. */
module Numbers {
  import opened Wrappers

  /** The smaller of two integers. */
  function Min(a: int, b: int): int {
    if a <= b then a else b
  }

  predicate IsDigit(c: char) {
    '0' <= c <= '9'
  }

  function DigitChar(d: nat): (c: char)
    requires d < 10
    ensures IsDigit(c)
    ensures c as int - '0' as int == d
  {
    ('0' as int + d) as char
  }

  function DigitValue(c: char): (d: nat)
    requires IsDigit(c)
    ensures d < 10
  {
    c as int - '0' as int
  }

  /** The decimal digits of `n`, most significant first, without leading zeros. */
  function NatToString(n: nat): (s: string)
    ensures |s| >= 1
    ensures forall i | 0 <= i < |s| :: IsDigit(s[i])
    ensures |s| > 1 ==> s[0] != '0'
  {
    if n < 10 then [DigitChar(n)] else NatToString(n / 10) + [DigitChar(n % 10)]
  }

  /** `String.valueOf(int)`: a minus sign for negative values, then the digits. */
  function IntToString(n: int): (s: string)
    ensures |s| >= 1
    ensures n < 0 <==> s[0] == '-'
  {
    if n < 0 then "-" + NatToString(-n) else NatToString(n)
  }

  /** The value of a string of decimal digits. */
  function DigitsValue(s: string): nat
    requires forall i | 0 <= i < |s| :: IsDigit(s[i])
  {
    if s == [] then 0 else 10 * DigitsValue(s[..|s| - 1]) + DigitValue(s[|s| - 1])
  }

  predicate AllDigits(s: string) {
    forall i | 0 <= i < |s| :: IsDigit(s[i])
  }

  /** Reads an optionally negative decimal integer. */
  function ParseInt(s: string): Option<int> {
    if |s| >= 2 && s[0] == '-' && AllDigits(s[1..]) then Some(0 - DigitsValue(s[1..]) as int)
    else if |s| >= 1 && AllDigits(s) then Some(DigitsValue(s))
    else None
  }

  lemma {:induction false} NatToStringValue(n: nat)
    ensures DigitsValue(NatToString(n)) == n
  {
    if n >= 10 {
      var s := NatToString(n);
      NatToStringValue(n / 10);
      assert s[..|s| - 1] == NatToString(n / 10);
    }
  }

  /** Reading back a rendered integer gives the integer. */
  lemma IntToStringRoundTrip(n: int)
    ensures ParseInt(IntToString(n)) == Some(n)
  {
    var a: nat := if n < 0 then -n else n;
    SignedDigits(n < 0, a);
    assert IntToString(n) == (if n < 0 then "-" else "") + NatToString(a);
  }

  /** A rating in tenths printed with exactly one fractional digit, e.g. 87
      prints as "8.7", 100 as "10.0" and -5 as "-0.5". */
  function FormatTenths(r: int): (s: string)
    ensures |s| >= 3
    ensures s[|s| - 2] == '.' && IsDigit(s[|s| - 1])
    ensures r < 0 <==> s[0] == '-'
  {
    var m: nat := if r < 0 then -r else r;
    (if r < 0 then "-" else "") + NatToString(m / 10) + "." + [DigitChar(m % 10)]
  }

  /** Reads back a one-decimal number as tenths. */
  function ParseTenths(s: string): Option<int> {
    if |s| >= 3 && s[|s| - 2] == '.' && IsDigit(s[|s| - 1]) then
      match ParseInt(s[..|s| - 2])
      case None => None
      case Some(w) =>
        var d := DigitValue(s[|s| - 1]);
        if s[0] == '-' then Some(10 * w - d) else Some(10 * w + d)
    else None
  }

  lemma FormatTenthsRoundTrip(r: int)
    ensures ParseTenths(FormatTenths(r)) == Some(r)
  {
    var m: nat := if r < 0 then -r else r;
    TenthsArithmetic(r, m, m / 10, m % 10);
    TenthsOf(r < 0, m / 10, m % 10);
  }

  /** A sign, whole digits, a point and one digit read back as tenths. */
  lemma TenthsOf(negative: bool, q: nat, d: nat)
    requires d < 10
    ensures ParseTenths((if negative then "-" else "") + NatToString(q) + "." + [DigitChar(d)])
         == Some(if negative then -(10 * q + d) else 10 * q + d)
  {
    var whole := (if negative then "-" else "") + NatToString(q);
    var w: int := if negative then -(q as int) else q as int;
    var c := DigitChar(d);
    SignedDigits(negative, q);
    SignStart(negative, q);
    ParseTenthsSplit(whole, c);
    assert DigitValue(c) == d;
    TenthsValue(negative, q, d, w);
  }

  lemma SignStart(negative: bool, q: nat)
    ensures |(if negative then "-" else "") + NatToString(q)| >= 1
    ensures ((if negative then "-" else "") + NatToString(q))[0] == '-' <==> negative
  {
    var t := NatToString(q);
    assert IsDigit(t[0]);
  }

  lemma TenthsValue(negative: bool, q: nat, d: nat, w: int)
    requires w == if negative then -(q as int) else q as int
    ensures (if negative then 10 * w - d else 10 * w + d) == (if negative then -(10 * q + d) else 10 * q + d)
  {
  }

  lemma TenthsArithmetic(r: int, m: nat, q: nat, d: nat)
    requires m == (if r < 0 then -r else r) && q == m / 10 && d == m % 10
    ensures r < 0 ==> -(10 * q + d) == r
    ensures r >= 0 ==> 10 * q + d == r
  {
  }

  /** A sign and digits read back, "-0" included. */
  lemma SignedDigits(negative: bool, n: nat)
    ensures ParseInt((if negative then "-" else "") + NatToString(n)) == Some(if negative then -(n as int) else n as int)
  {
    var t := NatToString(n);
    NatToStringValue(n);
    assert AllDigits(t);
    if negative {
      NegativeDigits(t);
    } else {
      assert "" + t == t;
      PlainDigits(t);
    }
  }

  lemma NegativeDigits(t: string)
    requires |t| >= 1 && AllDigits(t)
    ensures ParseInt("-" + t) == Some(0 - DigitsValue(t) as int)
  {
    assert ("-" + t)[1..] == t;
  }

  lemma PlainDigits(t: string)
    requires |t| >= 1 && AllDigits(t)
    ensures ParseInt(t) == Some(DigitsValue(t) as int)
  {
    assert IsDigit(t[0]);
  }

  lemma ParseTenthsSplit(whole: string, c: char)
    requires |whole| >= 1 && IsDigit(c) && ParseInt(whole).Some?
    ensures ParseTenths(whole + "." + [c])
         == Some(if whole[0] == '-' then 10 * ParseInt(whole).value - DigitValue(c)
                 else 10 * ParseInt(whole).value + DigitValue(c))
  {
    var s := whole + "." + [c];
    assert s[..|s| - 2] == whole;
    assert s[0] == whole[0];
  }

  /** `String.valueOf(boolean)`. */
  function BoolToString(b: bool): string {
    if b then "true" else "false"
  }

  function ParseBool(s: string): Option<bool> {
    if s == "true" then Some(true) else if s == "false" then Some(false) else None
  }

  /** A rendered number never contains the CSV delimiter, quote or line break. */
  lemma NumbersArePlain(n: int, r: int)
    ensures ',' !in IntToString(n) && '"' !in IntToString(n) && '\n' !in IntToString(n)
    ensures ',' !in FormatTenths(r) && '"' !in FormatTenths(r) && '\n' !in FormatTenths(r)
    ensures forall b: bool :: ParseBool(BoolToString(b)) == Some(b)
  {
    var a: nat := if n < 0 then -n else n;
    SignedDigitsPlain(n < 0, NatToString(a), []);
    assert IntToString(n) == (if n < 0 then "-" else "") + NatToString(a) + [];
    var m: nat := if r < 0 then -r else r;
    SignedDigitsPlain(r < 0, NatToString(m / 10), "." + [DigitChar(m % 10)]);
  }

  lemma SignedDigitsPlain(negative: bool, digits: string, tail: string)
    requires AllDigits(digits)
    requires forall i | 0 <= i < |tail| :: tail[i] == '.' || IsDigit(tail[i])
    ensures var s := (if negative then "-" else "") + digits + tail;
            ',' !in s && '"' !in s && '\n' !in s
  {
    var s := (if negative then "-" else "") + digits + tail;
    forall i | 0 <= i < |s|
      ensures s[i] != ',' && s[i] != '"' && s[i] != '\n'
    {
    }
  }
}
