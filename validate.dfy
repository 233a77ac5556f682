/**
 * The checks the scripts run on their command-line arguments as argparse
 * type functions: check_user_name, and check_user_id in its two forms (a
 * six-digit ID above 900000, or any integer from 900000 up).
 */
module Validate {
  import opened Wrappers
  import opened Chars
  import opened Search
  import opened Numbers

  const MinUserId: nat := 900000

  /** re.fullmatch(r"\w{1,max}", name). */
  function NameMatches(name: string, max: nat): (ok: bool)
    ensures ok <==> 1 <= |name| <= max && forall k :: 0 <= k < |name| ==> IsWordChar(name[k])
  {
    var e := RunEnd(name, 0, IsWordChar);
    e == |name| && 1 <= e <= max
  }

  /** An accepted name is a plain directory entry: it holds no '/' and is
      neither "." nor "..", so the override path names a file directly
      inside the override directory. */
  lemma AcceptedNameIsEntry(name: string, max: nat)
    requires NameMatches(name, max)
    ensures forall k :: 0 <= k < |name| ==> name[k] != '/'
    ensures name != "." && name != ".."
  {
    assert IsWordChar(name[0]);
  }

  /** check_user_id with re.fullmatch(r"\d{6}") and int(uid) > 900000: the
      value that passes, or None where the script exits. */
  function SixDigitId(uid: string): (r: Option<nat>)
    ensures r.Some? <==> |uid| == 6 && AllDigits(uid) && DigitsValue(uid) > MinUserId
    ensures r.Some? ==> MinUserId < r.value <= 999999 && DecimalString(r.value) == uid
  {
    if |uid| == 6 && AllDigits(uid) then
      PyIntOfDigits(uid);
      var v := PyInt(uid).value;
      if v > MinUserId then
        DigitsValueBelow(uid);
        LeadingDigitBounds(uid);
        ValueDecimalString(uid);
        Some(v as nat)
      else None
    else None
  }

  /** str() of a number of six digits is six characters long. */
  lemma {:induction false} SixDigitLength(n: nat)
    requires 100000 <= n <= 999999
    ensures |DecimalString(n)| == 6
  {
    var s := DecimalString(n);
    DecimalStringValue(n);
    DigitsValueBelow(s);
    LeadingDigitBounds(s);
    if |s| < 6 {
      PowMonotone(|s|, 5);
    } else if |s| > 6 {
      PowMonotone(6, |s| - 1);
    }
  }

  /** The six-digit rule accepts exactly the decimal numerals of
      900001..999999, and hands on the number they spell. */
  lemma SixDigitIdExactly(uid: string)
    ensures SixDigitId(uid).Some? <==> exists n: nat :: MinUserId < n <= 999999 && uid == DecimalString(n)
    ensures SixDigitId(uid).Some? ==> uid == DecimalString(SixDigitId(uid).value)
  {
    if n: nat :| MinUserId < n <= 999999 && uid == DecimalString(n) {
      SixDigitLength(n);
      DecimalStringValue(n);
    }
  }

  /** What check_user_id with int(uid) < 900000 does with an argument. */
  datatype IdCheck = Accepted(value: int) | TooSmall | NotAnInt

  /** check_user_id of bwidm-rest-ssh2.py: int() first (a ValueError is
      turned into an argparse error), then only values below 900000 are
      refused. */
  function AtLeastId(uid: string): (r: IdCheck)
    ensures r.Accepted? ==> r.value >= MinUserId
  {
    match PyInt(uid)
    case None => NotAnInt
    case Some(v) => if v < MinUserId then TooSmall else Accepted(v)
  }

  /** Every numeral of 900000 or more passes, up to the limit of int() on
      the number of digits; a longer one is not an int at all. */
  lemma AtLeastIdAccepts(n: nat)
    requires n >= MinUserId
    ensures |DecimalString(n)| <= MaxStrDigits ==> AtLeastId(DecimalString(n)) == Accepted(n)
    ensures |DecimalString(n)| > MaxStrDigits ==> AtLeastId(DecimalString(n)) == NotAnInt
  {
    PyIntDecimalString(n);
  }

  /** A digit string longer than the limit is refused as not an int, and
      with it every argument int() itself refuses. */
  lemma TooManyDigits(uid: string)
    requires |uid| > MaxStrDigits && AllDigits(uid)
    ensures AtLeastId(uid) == NotAnInt
  {
    PyIntOfDigits(uid);
  }

  /** The numerals of 0..899999 are refused as too small. */
  lemma AtLeastIdRefuses(n: nat)
    requires n < MinUserId
    ensures AtLeastId(DecimalString(n)) == TooSmall
  {
    DecimalStringLength(n, 6);
    PyIntDecimalString(n);
  }

  /** The two rules differ: 900000 itself and every ID above 999999 that
      int() can read pass the int() rule and fail the six-digit rule. */
  lemma RulesDiffer(n: nat)
    requires n == MinUserId || n > 999999
    ensures |DecimalString(n)| <= MaxStrDigits ==> AtLeastId(DecimalString(n)) == Accepted(n)
    ensures SixDigitId(DecimalString(n)) == None
  {
    AtLeastIdAccepts(n);
    var s := DecimalString(n);
    if SixDigitId(s).Some? {
      var v := SixDigitId(s).value;
      DecimalStringValue(v);
      DecimalStringValue(n);
    }
  }

  /** Each ID the six-digit rule accepts also passes the int() rule, with
      the same value. */
  lemma SixDigitImpliesAtLeast(uid: string)
    requires SixDigitId(uid).Some?
    ensures AtLeastId(uid) == Accepted(SixDigitId(uid).value)
  {
    PyIntOfDigits(uid);
  }
}
