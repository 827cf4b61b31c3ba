/**
 * Decimal text of integers, as the duration field of the settings list uses it:
 * Kotlin's Int.toString() renders a player's clock into the text field, and
 * String.toIntOrNull() reads the edited text back.
 */
module Decimal {

  datatype Option<T> = None | Some(value: T)

  predicate IsDigit(c: char) {
    '0' <= c <= '9'
  }

  predicate AllDigits(s: string) {
    forall k :: 0 <= k < |s| ==> IsDigit(s[k])
  }

  predicate IsSign(c: char) {
    c == '-' || c == '+'
  }

  function DigitChar(d: nat): (c: char)
    requires d < 10
    ensures IsDigit(c) && c as int - '0' as int == d
  {
    ('0' as int + d) as char
  }

  function DigitValue(c: char): (d: nat)
    requires IsDigit(c)
    ensures d < 10 && DigitChar(d) == c
  {
    c as int - '0' as int
  }

  /** The decimal digits of n, most significant first, with no leading zero. */
  function Digits(n: nat): (s: string)
    ensures |s| >= 1 && AllDigits(s)
    ensures (|s| == 1) == (n < 10)
    ensures s[0] == '0' ==> n == 0
    decreases n
  {
    if n < 10 then [DigitChar(n)] else Digits(n / 10) + [DigitChar(n % 10)]
  }

  /** The number a string of decimal digits denotes (the empty string denotes 0). */
  function ValueOf(s: string): nat
    requires AllDigits(s)
    decreases |s|
  {
    if s == [] then 0 else ValueOf(s[..|s| - 1]) * 10 + DigitValue(s[|s| - 1])
  }

  /**
   * Kotlin's Int.toString(): the digits with no leading zero ("0" for zero), behind a
   * '-' for a negative number; never a '+' and never padding.
   */
  function IntToString(n: int): (s: string)
    ensures |s| >= 1
    ensures (s[0] == '-') == (n < 0)
    ensures n >= 0 ==> AllDigits(s) && (s[0] == '0' ==> |s| == 1)
    ensures n < 0 ==> |s| >= 2 && AllDigits(s[1..]) && s[1] != '0'
  {
    if n < 0 then
      assert ("-" + Digits(-n))[1..] == Digits(-n);
      "-" + Digits(-n)
    else Digits(n)
  }

  /**
   * Kotlin's String.toIntOrNull() in radix 10: an optional '+' or '-' followed by
   * at least one digit; anything else gives None.
   */
  function ParseInt(s: string): (r: Option<int>)
    ensures r.Some? <==> (|s| >= 1 && AllDigits(s)) || (|s| >= 2 && IsSign(s[0]) && AllDigits(s[1..]))
  {
    if |s| == 0 then None
    else if IsSign(s[0]) then
      if |s| > 1 && AllDigits(s[1..]) then
        var magnitude: int := ValueOf(s[1..]);
        Some(if s[0] == '-' then -magnitude else magnitude)
      else None
    else if AllDigits(s) then Some(ValueOf(s))
    else None
  }

  /** `text.toIntOrNull() ?: 0`: text that is not a number counts as 0. */
  function ParseIntOrZero(s: string): (n: int)
    ensures ParseInt(s).Some? ==> n == ParseInt(s).value
    ensures ParseInt(s).None? ==> n == 0
  {
    match ParseInt(s)
    case Some(v) => v
    case None => 0
  }

  lemma {:induction false} ValueOfDigits(n: nat)
    ensures ValueOf(Digits(n)) == n
    decreases n
  {
    var s := Digits(n);
    if n < 10 {
      assert s[..|s| - 1] == [];
    } else {
      assert s[..|s| - 1] == Digits(n / 10);
      ValueOfDigits(n / 10);
    }
  }

  /** A leading zero does not change the value of a digit string. */
  lemma {:induction false} ValueOfLeadingZero(s: string)
    requires AllDigits(s)
    ensures AllDigits("0" + s) && ValueOf("0" + s) == ValueOf(s)
    decreases |s|
  {
    var z := "0" + s;
    if s == [] {
      assert z[..|z| - 1] == [];
    } else {
      assert z[..|z| - 1] == "0" + s[..|s| - 1];
      ValueOfLeadingZero(s[..|s| - 1]);
    }
  }

  /** Reading back the text Int.toString() produced gives the same number. */
  lemma ParseIntToString(n: int)
    ensures ParseInt(IntToString(n)) == Some(n)
    ensures ParseIntOrZero(IntToString(n)) == n
  {
    var s := IntToString(n);
    if n < 0 {
      var m: nat := -n;
      assert s == "-" + Digits(m);
      assert s[1..] == Digits(m);
      ValueOfDigits(m);
      var magnitude: int := ValueOf(Digits(m));
      assert ParseInt(s) == Some(-magnitude);
    } else {
      assert s == Digits(n);
      assert IsDigit(s[0]);
      ValueOfDigits(n);
    }
  }

  /**
   * Any non-empty run of digits, leading zeros included, reads as its value,
   * with or without a '+' in front, and negated behind a '-'.
   */
  lemma ParseIntOrZeroDigits(d: string)
    requires |d| >= 1 && AllDigits(d)
    ensures ParseInt(d) == Some(ValueOf(d) as int)
    ensures ParseIntOrZero(d) == ValueOf(d)
    ensures ParseIntOrZero("+" + d) == ValueOf(d)
    ensures ParseIntOrZero("-" + d) == -(ValueOf(d) as int)
  {
    assert ("+" + d)[1..] == d;
    assert ("-" + d)[1..] == d;
  }

  /** Text with a character that is neither a digit nor a leading sign parses to 0. */
  lemma ParseIntOrZeroRejects(s: string, k: nat)
    requires k < |s| && !IsDigit(s[k]) && !(k == 0 && IsSign(s[0]))
    ensures ParseIntOrZero(s) == 0
  {
    if IsSign(s[0]) {
      assert !IsDigit(s[1..][k - 1]);
    }
  }

  /** Examples: the empty or sign-only text and stray letters give 0. */
  lemma ParseIntOrZeroExamples()
    ensures ParseIntOrZero("120") == 120
    ensures ParseIntOrZero("-7") == -7
    ensures ParseIntOrZero("+42") == 42
    ensures ParseIntOrZero("007") == 7
    ensures ParseIntOrZero("") == 0
    ensures ParseIntOrZero("-") == 0
    ensures ParseIntOrZero("+") == 0
    ensures ParseIntOrZero("12a") == 0
  {
    assert "120"[..2] == "12" && "12"[..1] == "1" && "1"[..0] == "";
    assert "-7"[1..] == "7" && "7"[..0] == "";
    assert "+42"[1..] == "42" && "42"[..1] == "4" && "4"[..0] == "";
    assert "007"[..2] == "00" && "00"[..1] == "0" && "0"[..0] == "";
    assert !IsDigit("12a"[2]);
  }
}
