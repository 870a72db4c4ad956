/** formatTime: a second count shown as a zero-padded clock string "HH:MM:SS". */
module Duration {

  import Optional

  /** A JavaScript number as formatTime receives it: NaN, or a finite value
      (kept exact; floating-point rounding is not modelled). */
  datatype Num = NaN | Val(x: real)

  predicate IsDigit(c: char) {
    '0' <= c <= '9'
  }

  predicate AllDigits(s: string) {
    forall i :: 0 <= i < |s| ==> IsDigit(s[i])
  }

  function DigitChar(d: nat): (c: char)
    requires d < 10
    ensures IsDigit(c)
  {
    ('0' as int + d) as char
  }

  function DigitValue(c: char): (d: nat)
    requires IsDigit(c)
    ensures d < 10 && DigitChar(d) == c
  {
    c as int - '0' as int
  }

  /** The value of a string of decimal digits, most significant first. */
  function ParseDigits(s: string): nat
    requires AllDigits(s)
  {
    if |s| == 0 then 0 else ParseDigits(s[..|s| - 1]) * 10 + DigitValue(s[|s| - 1])
  }

  /** String(n) for a non-negative integer: its decimal digits, without leading zeros. */
  function Decimal(n: nat): (s: string)
    ensures AllDigits(s)
    ensures |s| >= 1 && (|s| == 1 <==> n < 10)
    ensures |s| > 1 ==> s[0] != '0'
  {
    if n < 10 then [DigitChar(n)] else Decimal(n / 10) + [DigitChar(n % 10)]
  }

  lemma {:induction false} DecimalRoundTrip(n: nat)
    ensures ParseDigits(Decimal(n)) == n
  {
    if n >= 10 {
      DecimalRoundTrip(n / 10);
      var s := Decimal(n);
      assert s[..|s| - 1] == Decimal(n / 10);
    }
  }

  /** One field of the clock: "0" is prepended to a value below 10. */
  function Pad2(n: nat): (s: string)
    ensures AllDigits(s) && |s| >= 2 && ParseDigits(s) == n
    ensures n < 100 ==> |s| == 2
    ensures |s| > 2 ==> s[0] != '0'
  {
    DecimalRoundTrip(n);
    if n < 10 then
      var s := "0" + Decimal(n);
      assert s[..1] == "0";
      s
    else
      Decimal(n)
  }

  /** A string shaped like formatTime's output: a run of at least two digits
      for the hours, then ":MM:SS" with two digits each, minutes and seconds below 60. */
  predicate IsClock(r: string) {
    && |r| >= 8
    && r[|r| - 6] == ':' && r[|r| - 3] == ':'
    && AllDigits(r[..|r| - 6]) && AllDigits(r[|r| - 5..|r| - 3]) && AllDigits(r[|r| - 2..])
    && ParseDigits(r[|r| - 5..|r| - 3]) < 60 && ParseDigits(r[|r| - 2..]) < 60
  }

  /** Reads a clock string back: hours * 3600 + minutes * 60 + seconds. */
  function ParseClock(r: string): Optional.Option<nat> {
    if IsClock(r) then
      Optional.Some(ParseDigits(r[..|r| - 6]) * 3600 + ParseDigits(r[|r| - 5..|r| - 3]) * 60 + ParseDigits(r[|r| - 2..]))
    else Optional.None
  }

  /** The hour field of a clock string. */
  function Hours(r: string): string
    requires |r| >= 6
  {
    r[..|r| - 6]
  }

  /** Three padded fields joined by ':' read back as the seconds they stand for. */
  lemma ClockFields(h: nat, m: nat, sec: nat)
    requires m < 60 && sec < 60
    ensures var r := Pad2(h) + ":" + Pad2(m) + ":" + Pad2(sec);
      && |r| == |Pad2(h)| + 6 && IsClock(r) && Hours(r) == Pad2(h)
      && ParseClock(r) == Optional.Some(h * 3600 + m * 60 + sec)
  {
    ClockSlices(Pad2(h), Pad2(m), Pad2(sec));
  }

  /** Where the three fields sit in "H:MM:SS". */
  lemma ClockSlices(a: string, b: string, c: string)
    requires |b| == 2 && |c| == 2
    ensures var r := a + ":" + b + ":" + c;
      && |r| == |a| + 6 && r[|r| - 6] == ':' && r[|r| - 3] == ':'
      && r[..|r| - 6] == a && r[|r| - 5..|r| - 3] == b && r[|r| - 2..] == c
  {
    var r := a + ":" + b + ":" + c;
    assert r == a + [':', b[0], b[1], ':', c[0], c[1]];
  }

  /** Splitting a second count into hours, minutes and seconds loses nothing. */
  lemma SplitSeconds(sec: nat)
    ensures sec % 3600 / 60 < 60 && sec % 60 < 60
    ensures sec == sec / 3600 * 3600 + sec % 3600 / 60 * 60 + sec % 60
  {
    var q, r := sec / 3600, sec % 3600;
    assert sec == q * 3600 + r && r < 3600;
    assert r == r / 60 * 60 + r % 60;
    assert sec == (q * 60 + r / 60) * 60 + r % 60;
    assert sec % 60 == r % 60;
  }

  /** formatTime (script.js:48-59). NaN and negative inputs give "00:00:00";
      otherwise the integer part is split into hours, minutes and seconds, each
      padded to at least two digits; hours never roll over into days. */
  function FormatTime(n: Num): (r: string)
    ensures n.NaN? || n.x < 0.0 ==> r == "00:00:00"
    ensures n.Val? && n.x >= 0.0 ==> ParseClock(r) == Optional.Some(n.x.Floor as nat)
    ensures n.Val? && n.x >= 0.0 ==> IsClock(r) && ParseDigits(Hours(r)) == n.x.Floor / 3600
    ensures n.Val? && n.x >= 0.0 && n.x.Floor < 360000 ==> |r| == 8
    ensures n.Val? && n.x >= 0.0 && |Hours(r)| > 2 ==> Hours(r)[0] != '0'
  {
    if n.NaN? || n.x < 0.0 then "00:00:00"
    else
      var sec: nat := n.x.Floor;
      var hours, minutes, seconds := sec / 3600, sec % 3600 / 60, sec % 60;
      SplitSeconds(sec);
      ClockFields(hours, minutes, seconds);
      Pad2(hours) + ":" + Pad2(minutes) + ":" + Pad2(seconds)
  }

  /** Five seconds are shown as "00:00:05": the hour field has two digits, not more. */
  lemma FiveSeconds()
    ensures FormatTime(Val(5.0)) == "00:00:05"
  {
    assert (5.0).Floor == 5;
    assert 5 / 3600 == 0 && 5 % 3600 / 60 == 0 && 5 % 60 == 5;
    assert Pad2(0) == "00" && Pad2(5) == "05";
  }

  /** A negative or NaN duration reads the same as a zero one. */
  lemma FormatTimeInvalidIsZero(n: Num)
    requires n.NaN? || n.x < 0.0
    ensures FormatTime(n) == FormatTime(Val(0.0))
  {
  }

  /** Different whole second counts give different strings. */
  lemma FormatTimeInjective(a: nat, b: nat)
    requires FormatTime(Val(a as real)) == FormatTime(Val(b as real))
    ensures a == b
  {
    assert ParseClock(FormatTime(Val(a as real))) == Optional.Some(a);
  }
}
