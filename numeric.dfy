/**
 * Decimal text to exact numbers: the part of `pd.to_numeric` that the cleaning
 * pipeline relies on. Accepted text is an optional sign, then digits with at most
 * one decimal point and at least one digit ("12", "-3", "4.5", "5.", ".5").
 * Anything else parses to nothing, which the pipeline turns into a missing value.
 */
module Numeric {
  import opened Basics

  predicate IsDigit(c: char) { '0' <= c <= '9' }

  predicate AllDigits(s: string) { forall i :: 0 <= i < |s| ==> IsDigit(s[i]) }

  function DigitValue(c: char): nat
    requires IsDigit(c)
  {
    c as int - '0' as int
  }

  /** The value of a run of digits, most significant first. */
  function DigitsValue(s: string): nat
    requires AllDigits(s)
  {
    if s == [] then 0 else 10 * DigitsValue(s[..|s| - 1]) + DigitValue(s[|s| - 1])
  }

  function Pow10(n: nat): (p: nat)
    ensures p >= 1
  {
    if n == 0 then 1 else 10 * Pow10(n - 1)
  }

  /** The number of leading digits. */
  function DigitRun(s: string): (n: nat)
    ensures n <= |s|
    ensures AllDigits(s[..n])
    ensures n < |s| ==> !IsDigit(s[n])
  {
    if s == [] || !IsDigit(s[0]) then 0
    else
      var n := 1 + DigitRun(s[1..]);
      assert s[..n] == [s[0]] + s[1..][..n - 1];
      n
  }

  predicate IsSign(c: char) { c == '+' || c == '-' }

  /** Digits, optionally followed by a point and more digits; at least one digit in all. */
  function ParseUnsigned(s: string): Option<real> {
    var n := DigitRun(s);
    if n == |s| then
      if n == 0 then None else Some(DigitsValue(s) as real)
    else if s[n] != '.' then None
    else
      var frac := s[n + 1..];
      if !AllDigits(frac) || (n == 0 && frac == []) then None
      else Some(DigitsValue(s[..n]) as real + DigitsValue(frac) as real / Pow10(|frac|) as real)
  }

  /** The number a cell's text denotes, if it is decimal text. */
  function ParseDecimal(s: string): Option<real> {
    if s != [] && IsSign(s[0]) then
      match ParseUnsigned(s[1..])
      case None => None
      case Some(v) => Some(if s[0] == '-' then -v else v)
    else ParseUnsigned(s)
  }

  /** Reference grammar of unsigned decimal text, stated character by character. */
  predicate IsUnsignedText(body: string) {
    && (forall i :: 0 <= i < |body| ==> IsDigit(body[i]) || body[i] == '.')
    && (forall i, j :: 0 <= i < j < |body| && body[i] == '.' ==> body[j] != '.')
    && (exists i :: 0 <= i < |body| && IsDigit(body[i]))
  }

  /** Reference grammar of decimal text: an optional sign, then unsigned decimal text. */
  predicate IsDecimalText(s: string) {
    if s != [] && IsSign(s[0]) then IsUnsignedText(s[1..]) else IsUnsignedText(s)
  }

  lemma UnsignedAccepts(body: string)
    ensures ParseUnsigned(body).Some? <==> IsUnsignedText(body)
  {
    var n := DigitRun(body);
    assert forall i :: 0 <= i < n ==> IsDigit(body[i]) by {
      forall i | 0 <= i < n ensures IsDigit(body[i]) { assert body[..n][i] == body[i]; }
    }
    if n < |body| && body[n] == '.' {
      var frac := body[n + 1..];
      assert forall i :: 0 <= i < |frac| ==> frac[i] == body[n + 1 + i];
      if ParseUnsigned(body).Some? {
        assert n > 0 ==> IsDigit(body[0]);
        assert n == 0 ==> IsDigit(body[n + 1]);
      }
    }
  }

  /** The parser accepts exactly the decimal text of the reference grammar. */
  lemma ParseDecimalAccepts(s: string)
    ensures ParseDecimal(s).Some? <==> IsDecimalText(s)
  {
    if s != [] && IsSign(s[0]) {
      UnsignedAccepts(s[1..]);
    } else {
      UnsignedAccepts(s);
    }
  }

  function DigitChar(d: nat): (c: char)
    requires d < 10
    ensures IsDigit(c) && DigitValue(c) == d
  {
    ('0' as int + d) as char
  }

  /** The decimal rendering of a natural number, as `str(n)` writes it. */
  function Digits(n: nat): (s: string)
    ensures AllDigits(s) && s != []
  {
    if n < 10 then [DigitChar(n)] else Digits(n / 10) + [DigitChar(n % 10)]
  }

  lemma {:induction false} DigitsValueOfDigits(n: nat)
    ensures DigitsValue(Digits(n)) == n
  {
    if n >= 10 {
      var s := Digits(n);
      assert s[..|s| - 1] == Digits(n / 10);
      DigitsValueOfDigits(n / 10);
    }
  }

  lemma {:induction false} DigitRunAll(s: string)
    requires AllDigits(s)
    ensures DigitRun(s) == |s|
  {
    if s != [] {
      DigitRunAll(s[1..]);
    }
  }

  /** Parsing what `str` writes for a whole number gives that number back. */
  lemma ParseRendered(n: nat)
    ensures ParseDecimal(Digits(n)) == Some(n as real)
  {
    var s := Digits(n);
    DigitRunAll(s);
    DigitsValueOfDigits(n);
    assert IsDigit(s[0]);
    assert ParseUnsigned(s) == Some(n as real);
  }

  /** The same for a negative whole number. */
  lemma ParseRenderedNegative(n: nat)
    ensures ParseDecimal("-" + Digits(n)) == Some(-(n as real))
  {
    var s := "-" + Digits(n);
    assert s[1..] == Digits(n);
    DigitRunAll(Digits(n));
    DigitsValueOfDigits(n);
    assert ParseUnsigned(s[1..]) == Some(n as real);
  }
}
