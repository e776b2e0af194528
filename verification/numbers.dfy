/**
 * Python `int(s)` on ASCII text, and a decimal printer it inverts.
 *
 * `int()` accepts surrounding whitespace, one optional sign, and decimal digits
 * that single underscores may separate ("1_000"); anything else raises
 * `ValueError`, modelled as `None`.
 */
module Numbers {
  import opened Wrappers
  import opened Text

  predicate IsDigit(c: char) {
    '0' <= c <= '9'
  }

  function DigitValue(c: char): nat
    requires IsDigit(c)
  {
    c as int - '0' as int
  }

  function DigitChar(d: nat): (c: char)
    requires d < 10
    ensures IsDigit(c) && DigitValue(c) == d
  {
    ('0' as int + d) as char
  }

  predicate DigitsOrUnderscores(s: string) {
    forall i :: 0 <= i < |s| ==> IsDigit(s[i]) || s[i] == '_'
  }

  /** The body of a Python integer literal: digits, with single underscores only between digits. */
  predicate IsDigitRun(s: string) {
    && |s| > 0
    && IsDigit(s[0])
    && DigitsOrUnderscores(s)
    && forall i :: 0 <= i < |s| && s[i] == '_' ==> i + 1 < |s| && IsDigit(s[i + 1])
  }

  /** The value of a digit run, read from the right; underscores carry no value. */
  function RunValue(s: string): nat
    requires DigitsOrUnderscores(s)
  {
    if |s| == 0 then 0
    else if s[|s| - 1] == '_' then RunValue(s[..|s| - 1])
    else 10 * RunValue(s[..|s| - 1]) + DigitValue(s[|s| - 1])
  }

  /** An integer literal with its surrounding whitespace already removed. */
  function ParseLiteral(t: string): Option<int> {
    if |t| > 0 && (t[0] == '-' || t[0] == '+') then
      if IsDigitRun(t[1..]) then
        Some(if t[0] == '-' then 0 - RunValue(t[1..]) else RunValue(t[1..]))
      else None
    else if IsDigitRun(t) then Some(RunValue(t))
    else None
  }

  /**
   * Python `int(s)`: `Some(n)` when it returns `n`, `None` when it raises.
   * A result needs a non-blank text, and a negative result a leading minus sign.
   */
  function ParseInt(s: string): (r: Option<int>)
    ensures r.Some? ==> Strip(s) != []
    ensures r.Some? && r.value < 0 ==> Strip(s)[0] == '-'
  {
    ParseLiteral(Strip(s))
  }

  /** The decimal digits of `n`, most significant first, without leading zeros. */
  function NatString(n: nat): (s: string)
    ensures |s| > 0
    ensures forall i :: 0 <= i < |s| ==> IsDigit(s[i])
    ensures |s| > 1 ==> s[0] != '0'
  {
    if n < 10 then [DigitChar(n)] else NatString(n / 10) + [DigitChar(n % 10)]
  }

  /** Python `str(n)` for an integer. */
  function DecimalString(n: int): (s: string)
    ensures |s| > 0
    ensures n < 0 <==> s[0] == '-'
  {
    if n < 0 then "-" + NatString(-n) else NatString(n)
  }

  /** Reading back the digits of `n` gives `n`. */
  lemma {:induction false} RunValueOfNatString(n: nat)
    ensures RunValue(NatString(n)) == n
  {
    if n >= 10 {
      var s := NatString(n);
      assert s[..|s| - 1] == NatString(n / 10);
      RunValueOfNatString(n / 10);
    }
  }

  /** `int(str(n)) == n`: the printer and the parser are inverse. */
  lemma ParseIntOfDecimalString(n: int)
    ensures ParseInt(DecimalString(n)) == Some(n)
  {
    var s := DecimalString(n);
    assert NoSpace(s);
    var t := NatString(if n < 0 then -n else n);
    RunValueOfNatString(if n < 0 then -n else n);
    assert IsDigitRun(t);
    if n < 0 {
      assert s[1..] == t;
      assert ParseLiteral(s) == Some(n);
    } else {
      assert ParseLiteral(s) == Some(n);
    }
  }


  /** Whitespace around a number does not change what `int()` reads. */
  lemma ParseIntIgnoresPadding(s: string)
    ensures ParseInt(Strip(s)) == ParseInt(s)
  {
    StripIdempotent(s);
    assert Strip(Strip(s)) == Strip(s);
  }

  function Pow10(w: nat): (p: nat)
    ensures p >= 1
  {
    if w == 0 then 1 else 10 * Pow10(w - 1)
  }

  /** `n` printed in exactly `w` digits with leading zeros, as `%0<w>d` does for `n < 10^w`. */
  function ZeroPad(n: nat, w: nat): (s: string)
    ensures |s| == w
    ensures forall i :: 0 <= i < |s| ==> IsDigit(s[i])
  {
    if w == 0 then [] else ZeroPad(n / 10, w - 1) + [DigitChar(n % 10)]
  }

  /** Reading back a zero-padded number that fits its width gives the number. */
  lemma {:induction false} RunValueOfZeroPad(n: nat, w: nat)
    requires n < Pow10(w)
    ensures RunValue(ZeroPad(n, w)) == n
  {
    if w > 0 {
      var s := ZeroPad(n, w);
      assert s[..|s| - 1] == ZeroPad(n / 10, w - 1);
      RunValueOfZeroPad(n / 10, w - 1);
    }
  }

  /** Zero padding to a width the numbers fit is injective. */
  lemma ZeroPadInjective(a: nat, b: nat, w: nat)
    requires a < Pow10(w) && b < Pow10(w)
    ensures ZeroPad(a, w) == ZeroPad(b, w) ==> a == b
  {
    RunValueOfZeroPad(a, w);
    RunValueOfZeroPad(b, w);
  }
}
