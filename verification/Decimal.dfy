/** Decimal numerals: the formatting and the unsigned parsing that file names and log fields go through. */
module Decimal {
  import opened Options

  function Digit(d: nat): (c: char)
    requires d < 10
    ensures '0' <= c <= '9'
  {
    (('0' as int) + d) as char
  }

  /** `n.to_string()`. */
  function ToDecimal(n: nat): (s: string)
    ensures s != ""
    ensures forall i :: 0 <= i < |s| ==> '0' <= s[i] <= '9'
  {
    if n < 10 then [Digit(n)] else ToDecimal(n / 10) + [Digit(n % 10)]
  }

  /** The value of a string of digits; `None` at the first other character. */
  function DigitsValue(s: string): Option<nat> {
    if s == "" then Some(0)
    else
      var c := s[|s| - 1];
      match DigitsValue(s[..|s| - 1])
      case None => None
      case Some(v) => if '0' <= c <= '9' then Some(10 * v + (c as int - '0' as int)) else None
  }

  /** `s.parse::<uN>().ok()` for a type holding the numbers below `limit`: a leading `+` is allowed. */
  function ParseUnsigned(s: string, limit: nat): Option<nat> {
    var digits := if |s| > 0 && s[0] == '+' then s[1..] else s;
    if digits == "" then None
    else
      match DigitsValue(digits)
      case None => None
      case Some(v) => if v < limit then Some(v) else None
  }

  lemma {:induction false} DigitsValueOfDecimal(n: nat)
    ensures DigitsValue(ToDecimal(n)) == Some(n)
  {
    var s := ToDecimal(n);
    if n >= 10 {
      DigitsValueOfDecimal(n / 10);
      assert s[..|s| - 1] == ToDecimal(n / 10);
    } else {
      assert s[..|s| - 1] == "";
    }
  }

  /** Parsing a formatted number gives the number back when the type can hold it. */
  lemma ParseOfDecimal(n: nat, limit: nat)
    ensures ParseUnsigned(ToDecimal(n), limit) == if n < limit then Some(n) else None
  {
    DigitsValueOfDecimal(n);
  }

  lemma DecimalInjective(m: nat, n: nat)
    requires ToDecimal(m) == ToDecimal(n)
    ensures m == n
  {
    DigitsValueOfDecimal(m);
    DigitsValueOfDecimal(n);
  }

  /** `{:0width}`: zeros on the left up to the width. */
  function ZeroPadded(s: string, width: nat): string
    decreases if |s| < width then width - |s| else 0
  {
    if |s| < width then ZeroPadded("0" + s, width) else s
  }

  lemma {:induction false} LeadingZero(s: string)
    ensures DigitsValue("0" + s) == DigitsValue(s)
  {
    if s == "" {
      assert DigitsValue("0"[..0]) == Some(0);
    } else {
      var t := "0" + s;
      LeadingZero(s[..|s| - 1]);
      assert t[..|t| - 1] == "0" + s[..|s| - 1];
    }
  }

  lemma {:induction false} PaddingKeepsValue(s: string, width: nat)
    ensures DigitsValue(ZeroPadded(s, width)) == DigitsValue(s)
    decreases if |s| < width then width - |s| else 0
  {
    if |s| >= width {
    } else {
      LeadingZero(s);
      PaddingKeepsValue("0" + s, width);
    }
  }

  // ----- What is parsed, and what is not -----

  lemma {:induction false} DigitsOnly(s: string)
    ensures DigitsValue(s).Some? <==> forall i :: 0 <= i < |s| ==> '0' <= s[i] <= '9'
  {
    if s != "" {
      DigitsOnly(s[..|s| - 1]);
      assert forall i :: 0 <= i < |s| - 1 ==> s[..|s| - 1][i] == s[i];
    }
  }

  /** One sign is allowed, and then digits only, at least one of them, worth less than the limit. */
  lemma {:induction false} ParseUnsignedExact(s: string, limit: nat)
    ensures var digits := if s != "" && s[0] == '+' then s[1..] else s;
      ParseUnsigned(s, limit).Some?
      <==> && digits != "" && (forall i :: 0 <= i < |digits| ==> '0' <= digits[i] <= '9')
           && DigitsValue(digits).Some? && DigitsValue(digits).value < limit
  {
    DigitsOnly(if s != "" && s[0] == '+' then s[1..] else s);
  }

  function Pow10(k: nat): (p: nat)
    ensures p > 0
  {
    if k == 0 then 1 else 10 * Pow10(k - 1)
  }

  /** A number has at most `k` digits exactly when it is below the `k`-th power of ten. */
  lemma {:induction false} DecimalLength(n: nat, k: nat)
    requires k > 0
    ensures |ToDecimal(n)| <= k <==> n < Pow10(k)
    decreases n
  {
    if n < 10 {
      assert Pow10(k) >= 10;
    } else if k == 1 {
      assert Pow10(1) == 10 * Pow10(0);
      assert |ToDecimal(n / 10)| >= 1;
    } else {
      DecimalLength(n / 10, k - 1);
      assert n < 10 * Pow10(k - 1) <==> n / 10 < Pow10(k - 1);
    }
  }

  /** Padding fills up to the width with zeros on the left. */
  lemma {:induction false} PaddedLength(s: string, width: nat)
    ensures |ZeroPadded(s, width)| == if |s| < width then width else |s|
    ensures var n := |ZeroPadded(s, width)| - |s|;
      n >= 0 && ZeroPadded(s, width)[n..] == s && forall i :: 0 <= i < n ==> ZeroPadded(s, width)[i] == '0'
    decreases if |s| < width then width - |s| else 0
  {
    if |s| < width {
      PaddedLength("0" + s, width);
      var p := ZeroPadded(s, width);
      var n := |p| - |s|;
      assert p[n - 1..] == "0" + s;
      assert p[n..] == p[n - 1..][1..] && p[n - 1] == p[n - 1..][0];
    }
  }
}
