/** `durationToMinutes` of supabase/functions/admin-review-booking/index.ts:
    the inquiry's free-text duration label turned into a number of minutes. */
module Duration {
  import opened Wrappers
  import opened Text
  import opened Numbers

  /** The fixed label table. */
  const Labels: map<string, nat> := map[
    "30 minutes" := 30,
    "1 hour" := 60,
    "1.5 hours" := 90,
    "2 hours" := 120,
    "3 hours" := 180,
    "4+ hours" := 240]

  /** Names a plain object literal inherits from `Object.prototype`: looking
      one of them up in the label table finds a function, not a number. */
  const InheritedKeys: set<string> := {
    "constructor", "hasOwnProperty", "isPrototypeOf", "propertyIsEnumerable",
    "toLocaleString", "toString", "valueOf", "__proto__",
    "__defineGetter__", "__defineSetter__", "__lookupGetter__", "__lookupSetter__"}

  /** What `durationToMinutes` returns: a minute count, a non-number found
      through the prototype chain, or `null`. */
  datatype Lookup = Minutes(minutes: nat) | Inherited | Unresolved

  /** `Math.round(h * 60)` for a positive finite `h`, exactly; `None` when the
      prefix is NaN, infinite or not positive. */
  function HoursToMinutes(h: FloatPrefix): (r: Option<nat>)
    ensures r.Some? <==> h.Finite? && h.mantissa > 0
    ensures r.Some? && h.exponent >= 0 ==> r.value == h.mantissa * 60 * Pow10(h.exponent)
    ensures r.Some? && h.exponent < 0 ==>
      2 * r.value * Pow10(-h.exponent) <= 2 * 60 * h.mantissa + Pow10(-h.exponent)
                                       < 2 * (r.value + 1) * Pow10(-h.exponent)
  {
    if h.Finite? && h.mantissa > 0 then
      if h.exponent >= 0 then Some(h.mantissa * 60 * Pow10(h.exponent))
      else
        Some(RoundHalfUp(60 * h.mantissa, Pow10(-h.exponent)))
    else None
  }

  /** `durationToMinutes`: a label of the table gives its minutes; a name
      inherited from `Object.prototype` gives a non-number; anything else is
      read with `parseFloat` as hours and rounded to whole minutes, or is
      `null` when no positive finite number starts it. */
  function DurationToMinutes(value: string): (r: Lookup)
    ensures value in Labels ==> r == Minutes(Labels[value])
    ensures value in InheritedKeys ==> r == Inherited
    ensures value !in Labels && value !in InheritedKeys ==>
      match HoursToMinutes(ParseFloat(value))
      case Some(m) => r == Minutes(m)
      case None => r == Unresolved
  {
    if value in Labels then Minutes(Labels[value])
    else if value in InheritedKeys then Inherited
    else
      match HoursToMinutes(ParseFloat(value))
      case Some(m) => Minutes(m)
      case None => Unresolved
  }

  /** The six labels and their minutes. */
  lemma LabelMinutes()
    ensures DurationToMinutes("30 minutes") == Minutes(30)
    ensures DurationToMinutes("1 hour") == Minutes(60)
    ensures DurationToMinutes("1.5 hours") == Minutes(90)
    ensures DurationToMinutes("2 hours") == Minutes(120)
    ensures DurationToMinutes("3 hours") == Minutes(180)
    ensures DurationToMinutes("4+ hours") == Minutes(240)
  {
  }

  /** "n hours" collides with no label but "2 hours" and "3 hours". */
  lemma HoursTextLabels(n: nat)
    ensures var s := NatToString(n) + " hours";
      s in Labels ==> s == "2 hours" || s == "3 hours"
  {
    var d := NatToString(n);
    var s := d + " hours";
    assert |s| >= 7 && s[|s| - 6] == ' ';
    assert |d| >= 2 ==> IsDigit(s[1]);
    assert s != "30 minutes" && s != "1 hour" && s != "1.5 hours" && s != "4+ hours";
  }

  lemma NumeralNotInherited(d: string)
    requires |d| > 0 && IsDigit(d[0])
    ensures d !in InheritedKeys
  {
    forall k | k in InheritedKeys
      ensures k != d
    {
      assert |k| > 0 && !IsDigit(k[0]);
    }
  }

  /** "n hours" means 60n minutes for every positive whole n, whether the
      table or the numeric fallback answers it. */
  lemma WholeHours(n: nat)
    requires n > 0
    ensures DurationToMinutes(NatToString(n) + " hours") == Minutes(60 * n)
  {
    var d := NatToString(n);
    var s := d + " hours";
    NumeralNotInherited(s);
    HoursTextLabels(n);
    if s == "2 hours" {
      assert d == s[..|s| - 6] == "2";
      assert NatToString(2) == "2";
      NatToStringInjective(n, 2);
    } else if s == "3 hours" {
      assert d == s[..|s| - 6] == "3";
      assert NatToString(3) == "3";
      NatToStringInjective(n, 3);
    } else {
      FallbackHours(n);
    }
  }

  lemma FallbackHours(n: nat)
    requires n > 0
    requires NatToString(n) + " hours" !in Labels
    requires NatToString(n) + " hours" !in InheritedKeys
    ensures DurationToMinutes(NatToString(n) + " hours") == Minutes(60 * n)
  {
    ParseFloatOfNumeral(n, " hours");
    var h := ParseFloat(NatToString(n) + " hours");
    assert h == Finite(n, 0);
    assert Pow10(0) == 1;
    assert n * 60 * Pow10(0) == 60 * n;
    assert HoursToMinutes(h) == Some(60 * n);
  }

  /** A label outside both tables that starts with no number, sign, point
      or white space is rejected. */
  lemma NonNumericRejected(s: string)
    requires s !in Labels && s !in InheritedKeys
    requires |s| > 0 && !IsSpace(s[0]) && !IsDigit(s[0])
    requires s[0] != '+' && s[0] != '-' && s[0] != '.' && s[0] != 'I'
    ensures DurationToMinutes(s) == Unresolved
  {
    ParseFloatNoNumber(s);
  }
}
