/** Decimal integers as text: an approximation of Python's `int(str)` and the
    canonical decimal spelling of an integer, which is its partner. */
module IntParsing {
  import opened Wrappers

  predicate IsDigit(c: char) {
    '0' <= c <= '9'
  }

  predicate AllDigits(s: string) {
    forall i :: 0 <= i < |s| ==> IsDigit(s[i])
  }

  predicate IsSign(c: char) {
    c == '+' || c == '-'
  }

  function DigitValue(c: char): (d: nat)
    requires IsDigit(c)
    ensures d < 10
  {
    c as int - '0' as int
  }

  function DigitChar(d: nat): (c: char)
    requires d < 10
    ensures IsDigit(c) && DigitValue(c) == d
  {
    ('0' as int + d) as char
  }

  /** The value of a string of decimal digits, most significant digit first. */
  function DigitsValue(s: string): nat
    requires AllDigits(s)
  {
    if s == [] then 0 else DigitsValue(s[..|s| - 1]) * 10 + DigitValue(s[|s| - 1])
  }

  /** The shape `int(str)` accepts here: an optional sign, then one or more digits. */
  predicate IsDecimal(s: string) {
    (|s| > 0 && AllDigits(s)) || (|s| > 1 && IsSign(s[0]) && AllDigits(s[1..]))
  }

  /** Python's `int(s)` for a string: the integer it spells, or None where
      Python raises ValueError. */
  function ParseInt(s: string): (r: Option<int>)
    ensures r.Some? <==> IsDecimal(s)
  {
    var signed := |s| > 0 && IsSign(s[0]);
    var digits := if signed then s[1..] else s;
    if |digits| > 0 && AllDigits(digits) then
      var n: int := DigitsValue(digits);
      Some(if signed && s[0] == '-' then -n else n)
    else
      None
  }

  /** Canonical decimal spelling of a natural number: no sign, no leading zero. */
  function ShowNat(n: nat): (s: string)
    ensures |s| > 0 && AllDigits(s)
    ensures s[0] == '0' ==> n == 0
  {
    if n < 10 then [DigitChar(n)] else ShowNat(n / 10) + [DigitChar(n % 10)]
  }

  /** Canonical decimal spelling of an integer, as Python's `str(n)`. */
  function ShowInt(n: int): (s: string)
    ensures IsDecimal(s)
  {
    if n < 0 then "-" + ShowNat(-n) else ShowNat(n)
  }

  lemma {:induction false} DigitsValueOfShowNat(n: nat)
    ensures DigitsValue(ShowNat(n)) == n
  {
    var s := ShowNat(n);
    if n >= 10 {
      DigitsValueOfShowNat(n / 10);
      assert s[..|s| - 1] == ShowNat(n / 10);
    }
  }

  /** `int(str(n)) == n` for every integer n. */
  lemma ParseShowInt(n: int)
    ensures ParseInt(ShowInt(n)) == Some(n)
  {
    var s := ShowInt(n);
    if n < 0 {
      var digits := ShowNat(-n);
      DigitsValueOfShowNat(-n);
      assert s == "-" + digits;
      assert s[0] == '-' && s[1..] == digits;
    } else {
      DigitsValueOfShowNat(n);
      assert IsDigit(s[0]) && !IsSign(s[0]);
    }
  }

  lemma {:induction false} DigitsValueLeadingZero(s: string)
    requires AllDigits(s)
    ensures AllDigits("0" + s) && DigitsValue("0" + s) == DigitsValue(s)
  {
    if s != [] {
      var t := "0" + s;
      assert t[..|t| - 1] == "0" + s[..|s| - 1];
      DigitsValueLeadingZero(s[..|s| - 1]);
    }
  }

  /** Leading zeros do not change the value: `int("007") == int("7")`. */
  lemma ParseIntLeadingZero(s: string)
    requires |s| > 0 && AllDigits(s)
    ensures ParseInt("0" + s) == ParseInt(s)
  {
    DigitsValueLeadingZero(s);
  }

  /** A sign in front of digits: `int("-d") == -int("d")` and `int("+d") == int("d")`. */
  lemma ParseIntSign(s: string)
    requires |s| > 0 && AllDigits(s)
    ensures ParseInt("-" + s) == Some(-ParseInt(s).value)
    ensures ParseInt("+" + s) == ParseInt(s)
  {
  }
}
