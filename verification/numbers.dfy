/** Decimal text and numbers: JavaScript's `String(n)` for integers,
    `padStart(2, "0")`, `Number.parseInt(s, 10)`, the longest-prefix grammar
    of `Number.parseFloat`, and `Math.round`. Numbers are exact: a parsed
    decimal is kept as `mantissa * 10^exponent` rather than as an IEEE double. */
module Numbers {
  import opened Wrappers
  import opened Text

  function Pow10(k: nat): (r: nat)
    ensures r >= 1
    ensures k > 0 ==> r >= 10
  {
    if k == 0 then 1 else 10 * Pow10(k - 1)
  }

  function DigitChar(d: nat): (c: char)
    requires d < 10
    ensures IsDigit(c)
  {
    ('0' as int + d) as char
  }

  function DigitValue(c: char): (d: nat)
    requires IsDigit(c)
    ensures d < 10 && DigitChar(d) == c
  {
    c as int - '0' as int
  }

  predicate AllDigits(s: string) {
    forall i :: 0 <= i < |s| ==> IsDigit(s[i])
  }

  /** `String(n)` for a natural number: shortest decimal numeral, no leading zero. */
  function NatToString(n: nat): (r: string)
    ensures |r| >= 1 && AllDigits(r)
    ensures |r| > 1 ==> r[0] != '0'
    ensures n < 10 <==> |r| == 1
  {
    if n < 10 then [DigitChar(n)] else NatToString(n / 10) + [DigitChar(n % 10)]
  }

  /** Value of a string of decimal digits, most significant first. */
  function DigitsValue(s: string): (v: nat)
    requires AllDigits(s)
  {
    if |s| == 0 then 0 else 10 * DigitsValue(s[..|s| - 1]) + DigitValue(s[|s| - 1])
  }

  /** Reading back the numeral of `n` gives `n`. */
  lemma {:induction false} DigitsValueOfNatToString(n: nat)
    ensures DigitsValue(NatToString(n)) == n
  {
    var r := NatToString(n);
    if n >= 10 {
      assert r[..|r| - 1] == NatToString(n / 10);
      DigitsValueOfNatToString(n / 10);
    }
  }

  /** Numerals are injective. */
  lemma NatToStringInjective(m: nat, n: nat)
    requires NatToString(m) == NatToString(n)
    ensures m == n
  {
    DigitsValueOfNatToString(m);
    DigitsValueOfNatToString(n);
  }

  /** `String(i)` for an integer. */
  function IntToString(i: int): (r: string)
    ensures |r| >= 1
    ensures i >= 0 ==> AllDigits(r)
    ensures i < 0 ==> r[0] == '-' && AllDigits(r[1..])
  {
    if i < 0 then "-" + NatToString(-i) else NatToString(i)
  }

  /** `String(n).padStart(2, "0")`. */
  function Pad2(n: nat): (r: string)
    ensures |r| >= 2 && AllDigits(r)
    ensures n < 100 ==> |r| == 2 && DigitsValue(r) == n
  {
    if n < 10 then
      var r := "0" + NatToString(n);
      assert r[..1] == "0" && "0"[..0] == "";
      assert DigitsValue(r) == n;
      r
    else
      DigitsValueOfNatToString(n);
      NatToString(n)
  }

  /** The longest prefix of `s` made of decimal digits. */
  function LeadingDigits(s: string): (r: string)
    ensures AllDigits(r) && StartsWith(s, r)
    ensures |r| < |s| ==> !IsDigit(s[|r|])
  {
    if |s| > 0 && IsDigit(s[0]) then [s[0]] + LeadingDigits(s[1..]) else ""
  }

  /** The digit prefix of a numeral followed by a non-digit is the numeral. */
  lemma {:induction false} LeadingDigitsOf(d: string, rest: string)
    requires AllDigits(d)
    requires |rest| > 0 ==> !IsDigit(rest[0])
    ensures LeadingDigits(d + rest) == d
    decreases |d|
  {
    if |d| > 0 {
      assert (d + rest)[1..] == d[1..] + rest;
      LeadingDigitsOf(d[1..], rest);
    }
  }

  /** `Number.parseInt(s, 10)`: leading white space, an optional sign, then
      the longest run of digits; `None` (NaN) when there is no digit. */
  function ParseInt(s: string): (r: Option<int>)
  {
    var t := TrimStart(s);
    var neg := StartsWith(t, "-");
    var u := if StartsWith(t, "-") || StartsWith(t, "+") then t[1..] else t;
    var ds := LeadingDigits(u);
    if ds == "" then None
    else if neg then Some(-(DigitsValue(ds) as int))
    else Some(DigitsValue(ds))
  }

  /** `parseInt` reads back every integer `String` writes. */
  lemma ParseIntOfIntToString(i: int)
    ensures ParseInt(IntToString(i)) == Some(i)
  {
    var n: nat := if i < 0 then -i else i;
    var d := NatToString(n);
    var s := IntToString(i);
    LeadingDigitsOf(d, "");
    assert d + "" == d;
    DigitsValueOfNatToString(n);
    assert !IsSpace(s[0]);
    assert TrimStart(s) == s;
    if i < 0 {
      assert s == "-" + d;
      assert StartsWith(s, "-");
      assert s[1..] == d;
    } else {
      assert s == d;
      assert !StartsWith(s, "-") && !StartsWith(s, "+");
    }
  }

  /** What `Number.parseFloat` finds at the start of a string. */
  datatype FloatPrefix =
    | NotANumber
    | Infinite(negative: bool)
    | Finite(mantissa: int, exponent: int)   // value mantissa * 10^exponent

  /** The optional exponent part `e[+-]digits`; 0 when absent or when no digit follows. */
  function ExponentPart(s: string): int
  {
    if |s| > 0 && (s[0] == 'e' || s[0] == 'E') then
      var t := s[1..];
      var u := if StartsWith(t, "-") || StartsWith(t, "+") then t[1..] else t;
      var ds := LeadingDigits(u);
      if ds == "" then 0
      else if StartsWith(t, "-") then -(DigitsValue(ds) as int)
      else DigitsValue(ds)
    else 0
  }

  /** `t` without one leading sign character. */
  function Unsigned(t: string): (u: string)
    ensures |u| <= |t|
  {
    if StartsWith(t, "-") || StartsWith(t, "+") then t[1..] else t
  }

  /** An unsigned decimal literal `digits [. digits] [e [+-] digits]` at the
      start of `u`, with at least one mantissa digit, as (mantissa, exponent). */
  function UnsignedDecimal(u: string): Option<(nat, int)>
  {
    var ip := LeadingDigits(u);
    var after := u[|ip|..];
    var fp := if StartsWith(after, ".") then LeadingDigits(after[1..]) else "";
    if |ip| + |fp| == 0 then None
    else
      var rest := if StartsWith(after, ".") then after[1 + |fp|..] else after;
      Some((DigitsValue(ip + fp), ExponentPart(rest) - |fp|))
  }

  /** `Number.parseFloat`: after leading white space and an optional sign,
      either `Infinity` or the longest unsigned decimal literal. */
  function ParseFloat(s: string): (r: FloatPrefix)
  {
    var t := TrimStart(s);
    var u := Unsigned(t);
    if StartsWith(u, "Infinity") then Infinite(StartsWith(t, "-"))
    else
      match UnsignedDecimal(u)
      case None => NotANumber
      case Some((m, e)) => Finite(if StartsWith(t, "-") then -(m as int) else m, e)
  }

  /** Text starting with no white space, sign, digit, point or `I` reads as NaN. */
  lemma ParseFloatNoNumber(s: string)
    requires |s| > 0 && !IsSpace(s[0]) && !IsDigit(s[0])
    requires s[0] != '+' && s[0] != '-' && s[0] != '.' && s[0] != 'I'
    ensures ParseFloat(s) == NotANumber
  {
    assert TrimStart(s) == s;
    assert Unsigned(s) == s;
    assert !StartsWith(s, "Infinity");
    assert LeadingDigits(s) == "";
    assert s[0..] == s;
  }

  lemma UnsignedDecimalOfNumeral(n: nat, rest: string)
    requires |rest| > 0 ==> !IsDigit(rest[0]) && rest[0] != '.' && rest[0] != 'e' && rest[0] != 'E'
    ensures UnsignedDecimal(NatToString(n) + rest) == Some((n, 0))
  {
    var d := NatToString(n);
    var s := d + rest;
    LeadingDigitsOf(d, rest);
    assert s[|d|..] == rest;
    assert !StartsWith(rest, ".");
    assert ExponentPart(rest) == 0;
    assert d + "" == d;
    DigitsValueOfNatToString(n);
  }

  /** A numeral followed by text that cannot continue a decimal literal parses
      to exactly that integer. */
  lemma ParseFloatOfNumeral(n: nat, rest: string)
    requires |rest| > 0 ==> !IsDigit(rest[0]) && rest[0] != '.' && rest[0] != 'e' && rest[0] != 'E'
    ensures ParseFloat(NatToString(n) + rest) == Finite(n, 0)
  {
    var s := NatToString(n) + rest;
    assert IsDigit(s[0]) && !IsSpace(s[0]);
    assert TrimStart(s) == s;
    assert !StartsWith(s, "-") by { assert s[0] != '-'; }
    assert !StartsWith(s, "+") by { assert s[0] != '+'; }
    assert Unsigned(s) == s;
    assert !StartsWith(s, "Infinity") by { assert s[0] != 'I'; }
    UnsignedDecimalOfNumeral(n, rest);
  }

  /** `Math.round(num / den)`: the nearest integer, halves rounded up. */
  function RoundHalfUp(num: int, den: nat): (r: int)
    requires den > 0
    ensures 2 * r * den <= 2 * num + den < 2 * (r + 1) * den
  {
    (2 * num + den) / (2 * den)
  }
}
