/**
 * Decimal numerals: the value of a digit string (what int() computes for the
 * six-digit user IDs), str() of a natural number (how a user ID appears in a
 * request URL), and Python's int() on an arbitrary argument string, with
 * ASCII digits only.
 */
module Numbers {
  import opened Wrappers
  import opened Chars
  import opened Search

  function DigitValue(c: char): nat
    requires IsDigit(c)
  {
    c as int - '0' as int
  }

  function DigitChar(d: nat): (c: char)
    requires d < 10
    ensures IsDigit(c) && DigitValue(c) == d
  {
    ('0' as int + d) as char
  }

  predicate AllDigits(s: string) {
    forall k :: 0 <= k < |s| ==> IsDigit(s[k])
  }

  /** The value of a string of decimal digits, most significant first. */
  function DigitsValue(s: string): nat
    requires AllDigits(s)
    decreases |s|
  {
    if s == [] then 0 else DigitsValue(s[..|s| - 1]) * 10 + DigitValue(s[|s| - 1])
  }

  /** str(n) for a natural number n. */
  function DecimalString(n: nat): (s: string)
    decreases n
    ensures |s| > 0 && AllDigits(s)
    ensures |s| > 1 ==> s[0] != '0'
  {
    if n < 10 then [DigitChar(n)] else DecimalString(n / 10) + [DigitChar(n % 10)]
  }

  /** Reading back what str() wrote gives the number. */
  lemma {:induction false} DecimalStringValue(n: nat)
    ensures DigitsValue(DecimalString(n)) == n
  {
    if n >= 10 {
      var s := DecimalString(n);
      assert s[..|s| - 1] == DecimalString(n / 10);
      DecimalStringValue(n / 10);
    }
  }

  /** Writing out the value of a digit string without leading zeros gives
      the string back. */
  lemma {:induction false} ValueDecimalString(s: string)
    requires |s| > 0 && AllDigits(s) && (|s| > 1 ==> s[0] != '0')
    ensures DecimalString(DigitsValue(s)) == s
  {
    if |s| > 1 {
      var init := s[..|s| - 1];
      assert init[0] == s[0];
      ValueDecimalString(init);
      NoLeadingZeroIsLarge(init);
      var n := DigitsValue(s);
      assert n / 10 == DigitsValue(init) && n % 10 == DigitValue(s[|s| - 1]);
      assert s == init + [s[|s| - 1]];
    }
  }

  /** A digit string of two or more digits without a leading zero is worth
      at least ten. */
  lemma {:induction false} NoLeadingZeroIsLarge(s: string)
    requires |s| > 0 && AllDigits(s) && (|s| > 1 ==> s[0] != '0')
    ensures |s| > 1 ==> DigitsValue(s) >= 10
    ensures DigitsValue(s) > 0 || s == "0"
  {
    if |s| > 1 {
      var init := s[..|s| - 1];
      assert init[0] == s[0];
      NoLeadingZeroIsLarge(init);
    }
  }

  function Pow10(n: nat): (p: nat)
    ensures p >= 1
  {
    if n == 0 then 1 else 10 * Pow10(n - 1)
  }

  /** A digit string is worth less than ten to the power of its length. */
  lemma {:induction false} DigitsValueBelow(s: string)
    requires AllDigits(s)
    ensures DigitsValue(s) < Pow10(|s|)
  {
    if s != [] {
      var init := s[..|s| - 1];
      DigitsValueBelow(init);
      assert DigitsValue(s) == DigitsValue(init) * 10 + DigitValue(s[|s| - 1]);
      assert DigitsValue(init) * 10 <= (Pow10(|init|) - 1) * 10;
    }
  }

  /** The leading digit weighs ten to the power of the digits after it. */
  lemma {:induction false} DigitsValueCons(s: string)
    requires |s| > 0 && AllDigits(s)
    ensures DigitsValue(s) == DigitValue(s[0]) * Pow10(|s| - 1) + DigitsValue(s[1..])
  {
    if |s| > 1 {
      var init := s[..|s| - 1];
      DigitsValueCons(init);
      assert init[0] == s[0];
      assert init[1..] == s[1..][..|s| - 2];
      var d0, mid, last := DigitValue(s[0]), DigitsValue(init[1..]), DigitValue(s[|s| - 1]);
      assert DigitsValue(s[1..]) == mid * 10 + last;
      assert DigitsValue(s) == DigitsValue(init) * 10 + last;
      Regroup(d0, Pow10(|s| - 2), mid, last);
    }
  }

  lemma Regroup(d: int, p: int, mid: int, last: int)
    ensures (d * p + mid) * 10 + last == d * (10 * p) + (mid * 10 + last)
  {
  }

  lemma MulAtLeast(d: int, p: int)
    requires d >= 1 && p >= 0
    ensures d * p >= p
  {
  }

  /** The weight of the leading digit bounds the value from both sides. */
  lemma LeadingDigitBounds(s: string)
    requires |s| > 0 && AllDigits(s)
    ensures s[0] != '0' ==> DigitsValue(s) >= Pow10(|s| - 1)
    ensures s[0] == '0' ==> DigitsValue(s) < Pow10(|s| - 1)
  {
    DigitsValueCons(s);
    DigitsValueBelow(s[1..]);
    var d, p := DigitValue(s[0]), Pow10(|s| - 1);
    assert |s[1..]| == |s| - 1;
    if s[0] == '0' {
      assert d * p == 0;
    } else {
      MulAtLeast(d, p);
    }
  }

  /** str.strip() with the whitespace set int() uses. */
  function Strip(s: string): (t: string)
    decreases |s|
    ensures |t| <= |s|
    ensures |t| > 0 ==> !IsSpace(t[0]) && !IsSpace(t[|t| - 1])
  {
    if s == [] then []
    else if IsSpace(s[0]) then Strip(s[1..])
    else if IsSpace(s[|s| - 1]) then Strip(s[..|s| - 1])
    else s
  }

  /** The digit grammar int() accepts in base 10: digits, optionally with
      single underscores between them. */
  predicate UnderscoredDigits(t: string) {
    && |t| > 0 && IsDigit(t[0]) && IsDigit(t[|t| - 1])
    && (forall k :: 0 <= k < |t| ==> IsDigit(t[k]) || t[k] == '_')
    && (forall k :: 0 <= k < |t| - 1 ==> !(t[k] == '_' && t[k + 1] == '_'))
  }

  function RemoveUnderscores(t: string): (d: string)
    requires forall k :: 0 <= k < |t| ==> IsDigit(t[k]) || t[k] == '_'
    ensures AllDigits(d)
  {
    if t == [] then []
    else if t[0] == '_' then RemoveUnderscores(t[1..])
    else [t[0]] + RemoveUnderscores(t[1..])
  }

  /** CPython's limit on integer string conversion,
      sys.int_info.default_max_str_digits: int() of a decimal numeral with
      more digits, and str() of a number with more digits, raise
      ValueError. */
  const MaxStrDigits: nat := 4300

  /** int(s) for a str argument: None where int() raises ValueError, which
      it does for a text outside the grammar and for a numeral of more than
      MaxStrDigits digits (underscores are not counted, leading zeros are). */
  function PyInt(s: string): (r: Option<int>)
    ensures r.Some? ==> |DecimalString(Abs(r.value))| <= MaxStrDigits
  {
    var t := Strip(s);
    var signed := |t| > 0 && (t[0] == '+' || t[0] == '-');
    var body := if signed then t[1..] else t;
    if !UnderscoredDigits(body) then None
    else
      var digits := RemoveUnderscores(body);
      if |digits| > MaxStrDigits then None
      else
        var v: int := DigitsValue(digits);
        var value: int := if signed && t[0] == '-' then -v else v;
        DigitsFitStr(digits);
        Some(value)
  }

  function Abs(x: int): nat {
    if x < 0 then -x else x
  }

  /** str() of the value of a digit string has at most as many digits. */
  lemma DigitsFitStr(d: string)
    requires |d| > 0 && AllDigits(d)
    ensures |DecimalString(DigitsValue(d))| <= |d|
  {
    DigitsValueBelow(d);
    DecimalStringLength(DigitsValue(d), |d|);
  }

  lemma {:induction false} RemoveUnderscoresOfDigits(t: string)
    requires AllDigits(t)
    ensures RemoveUnderscores(t) == t
  {
    if t != [] {
      RemoveUnderscoresOfDigits(t[1..]);
    }
  }

  /** A plain digit string passes int()'s grammar unchanged: nothing to
      strip, no sign, no underscore. */
  lemma PlainDigits(s: string)
    requires |s| > 0 && AllDigits(s)
    ensures Strip(s) == s && s[0] != '+' && s[0] != '-'
    ensures UnderscoredDigits(s) && RemoveUnderscores(s) == s
  {
    assert IsDigit(s[0]) && IsDigit(s[|s| - 1]);
    assert !IsSpace(s[0]) && !IsSpace(s[|s| - 1]);
    RemoveUnderscoresOfDigits(s);
  }

  /** The value int() gives a plain digit string, and the ValueError for
      one longer than the limit. */
  lemma PyIntOfDigits(s: string)
    requires |s| > 0 && AllDigits(s)
    ensures PyInt(s) == if |s| <= MaxStrDigits then Some(DigitsValue(s)) else None
  {
    PlainDigits(s);
  }

  lemma {:induction false} PowMonotone(i: nat, j: nat)
    requires i <= j
    ensures Pow10(i) <= Pow10(j)
  {
    if i < j {
      PowMonotone(i, j - 1);
    }
  }

  /** str(n) has at most k digits exactly when n is below ten to the k. */
  lemma DecimalStringLength(n: nat, k: nat)
    requires k > 0
    ensures |DecimalString(n)| <= k <==> n < Pow10(k)
  {
    var s := DecimalString(n);
    DecimalStringValue(n);
    DigitsValueBelow(s);
    if |s| <= k {
      PowMonotone(|s|, k);
    } else {
      LeadingDigitBounds(s);
      PowMonotone(k, |s| - 1);
    }
  }

  /** int(str(n)) == n wherever str(n) itself stays within the limit; a
      longer str(n) is not read back. */
  lemma PyIntDecimalString(n: nat)
    ensures PyInt(DecimalString(n)).Some? <==> |DecimalString(n)| <= MaxStrDigits
    ensures |DecimalString(n)| <= MaxStrDigits ==> PyInt(DecimalString(n)) == Some(n)
  {
    PyIntOfDigits(DecimalString(n));
    DecimalStringValue(n);
  }
}
