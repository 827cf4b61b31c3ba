/**
 * Player.timeString(): a clock value in seconds rendered as "mm:ss" with
 * String.format("%02d:%02d", minutes, seconds), where minutes and seconds come
 * from Kotlin's Int division and remainder (both truncate toward zero, so a
 * negative clock gives negative fields).
 */
module ClockFormat {
  import opened Decimal

  /** Kotlin's `t / 60`: the quotient truncated toward zero. */
  function Minutes(t: int): (q: int)
    ensures 0 <= t ==> 0 <= q * 60 <= t < q * 60 + 60
    ensures t < 0 ==> q * 60 - 60 < t <= q * 60 <= 0
  {
    if t >= 0 then t / 60 else -((-t) / 60)
  }

  /** Kotlin's `t % 60`: the remainder takes the sign of t. */
  function Seconds(t: int): (r: int)
    ensures Minutes(t) * 60 + r == t
    ensures 0 <= t ==> 0 <= r < 60
    ensures t < 0 ==> -60 < r <= 0
  {
    if t >= 0 then t % 60 else -((-t) % 60)
  }

  /**
   * `%02d`: at least two characters; a non-negative value is padded with a
   * leading zero up to two characters and no further, a negative one is a '-'
   * followed by the digits of its magnitude, with no padding zero.
   */
  function Pad2(v: int): (s: string)
    ensures |s| >= 2
    ensures 0 <= v < 100 ==> |s| == 2
    ensures v < 0 <==> s[0] == '-'
    ensures 0 <= v ==> AllDigits(s) && ValueOf(s) == v
    ensures -10 < v < 0 ==> |s| == 2
    ensures v < 0 ==> AllDigits(s[1..]) && ValueOf(s[1..]) == -v
    ensures 0 <= v && |s| > 2 ==> s[0] != '0'
    ensures v < 0 ==> s[1] != '0'
  {
    if v < 0 then
      var d := Digits(-v);
      ValueOfDigits(-v);
      assert ("-" + d)[1..] == d;
      "-" + d
    else
      var d := Digits(v);
      ValueOfDigits(v);
      if v < 10 then
        ValueOfLeadingZero(d);
        "0" + d
      else d
  }

  /** Player.timeString(). */
  function TimeString(t: int): (s: string)
    ensures |s| >= 5
  {
    Pad2(Minutes(t)) + ":" + Pad2(Seconds(t))
  }

  /** Each `%02d` field, whatever its sign, reads back (as toIntOrNull would) to the number it shows. */
  lemma Pad2ReadsBack(v: int)
    ensures ParseInt(Pad2(v)) == Some(v)
  {
    var s := Pad2(v);
    if v < 0 {
      assert IsSign(s[0]) && |s| >= 2;
    } else {
      assert IsDigit(s[0]);
    }
  }

  /** No `%02d` field holds a colon. */
  lemma Pad2NoColon(v: int)
    ensures ':' !in Pad2(v)
  {
    var s := Pad2(v);
    forall k | 0 <= k < |s| ensures s[k] != ':' {
      if k > 0 || v >= 0 {
        assert IsDigit(s[k]) by {
          if v < 0 { assert s[k] == s[1..][k - 1]; }
        }
      }
    }
  }

  /**
   * For every clock, positive or not: the text is split by its only colon into
   * the minutes field and the seconds field, each showing its truncated value,
   * and minutes * 60 + seconds is the clock.
   */
  lemma TimeStringFields(t: int)
    ensures var s, k := TimeString(t), |Pad2(Minutes(t))|;
      k < |s| && s[k] == ':' && ':' !in s[..k] && ':' !in s[k + 1..]
      && ParseInt(s[..k]) == Some(Minutes(t)) && ParseInt(s[k + 1..]) == Some(Seconds(t))
      && Minutes(t) * 60 + Seconds(t) == t
  {
    var mm, ss := Pad2(Minutes(t)), Pad2(Seconds(t));
    var s := TimeString(t);
    assert s == mm + ":" + ss;
    assert s[..|mm|] == mm;
    assert s[|mm| + 1..] == ss;
    Pad2ReadsBack(Minutes(t));
    Pad2ReadsBack(Seconds(t));
    Pad2NoColon(Minutes(t));
    Pad2NoColon(Seconds(t));
  }

  /**
   * A reading of "mm:ss" text: the digits before the last three characters are
   * minutes, the last two characters are seconds below 60.
   */
  function ParseClock(s: string): Option<int> {
    if |s| >= 5 && s[|s| - 3] == ':' && AllDigits(s[..|s| - 3]) && AllDigits(s[|s| - 2..])
       && ValueOf(s[|s| - 2..]) < 60
    then Some(ValueOf(s[..|s| - 3]) * 60 + ValueOf(s[|s| - 2..]))
    else None
  }

  /** For a clock that has not run out, the text shows exactly its value: it reads back to t. */
  lemma TimeStringRoundTrip(t: int)
    requires t >= 0
    ensures ParseClock(TimeString(t)) == Some(t)
  {
    var mm, ss := Pad2(Minutes(t)), Pad2(Seconds(t));
    var s := TimeString(t);
    assert s == mm + ":" + ss;
    assert |ss| == 2;
    assert s[..|s| - 3] == mm;
    assert s[|s| - 2..] == ss;
    assert s[|s| - 3] == ':';
  }

  /** Below 100 minutes the text has the fixed shape "dd:dd". */
  lemma TimeStringShape(t: int)
    requires 0 <= t < 6000
    ensures |TimeString(t)| == 5 && TimeString(t)[2] == ':'
    ensures AllDigits(TimeString(t)[..2]) && AllDigits(TimeString(t)[3..])
  {
    var mm, ss := Pad2(Minutes(t)), Pad2(Seconds(t));
    var s := TimeString(t);
    assert s == mm + ":" + ss;
    assert s[..2] == mm && s[3..] == ss;
  }

  /**
   * A clock that went below zero shows its negative fields as they are: a '-'
   * before the minutes from -60 on, a '-' before the seconds unless they are
   * zero, and behind each '-' the digits of the field's magnitude.
   */
  lemma TimeStringNegative(t: int)
    requires t < 0
    ensures t <= -60 <==> TimeString(t)[0] == '-'
    ensures Seconds(t) < 0 <==> TimeString(t)[|Pad2(Minutes(t))| + 1] == '-'
    ensures var s, k := TimeString(t), |Pad2(Minutes(t))|;
      (t <= -60 ==> AllDigits(s[1..k]) && ValueOf(s[1..k]) == (-t) / 60)
      && (Seconds(t) < 0 ==> AllDigits(s[k + 2..]) && ValueOf(s[k + 2..]) == (-t) % 60)
  {
    var mm, ss := Pad2(Minutes(t)), Pad2(Seconds(t));
    var s := TimeString(t);
    var k := |mm|;
    assert s == mm + ":" + ss;
    assert s[1..k] == mm[1..];
    assert s[k + 1] == ss[0];
    assert s[k + 2..] == ss[1..];
  }

  /** 905 seconds show as "15:05". */
  lemma TimeString905()
    ensures TimeString(905) == "15:05"
  {
    assert Minutes(905) == 15 && Seconds(905) == 5;
    assert Digits(15) == "15" by { assert Digits(1) == "1"; }
    assert Pad2(5) == "05" by { assert Digits(5) == "5"; }
  }

  /** 59 seconds show as "00:59". */
  lemma TimeString59()
    ensures TimeString(59) == "00:59"
  {
    assert Minutes(59) == 0 && Seconds(59) == 59;
    assert Digits(59) == "59" by { assert Digits(5) == "5"; }
    assert Pad2(0) == "00" by { assert Digits(0) == "0"; }
  }

  /** A clock five seconds past zero shows "00:-5", and 65 seconds past zero "-1:-5". */
  lemma TimeStringBelowZero()
    ensures TimeString(-5) == "00:-5"
    ensures TimeString(-65) == "-1:-5"
  {
    assert Minutes(-5) == 0 && Seconds(-5) == -5;
    assert Minutes(-65) == -1 && Seconds(-65) == -5;
    assert Digits(0) == "0" && Digits(1) == "1" && Digits(5) == "5";
  }
}
