/**
 Rendering of a number of seconds as a clock face `MM:SS`, the way the timer
 page shows the remaining time and the elapsed/target times of its log.

 Numbers are JavaScript numbers in the page; here they are unbounded integers
 (the page only ever formats whole seconds). `Decimal` is the decimal text of a
 non-negative integer, `PadStart` is the string padding the page applies, and
 `ParseDecimal` is an independent reader of decimal text used to state what the
 rendered text means.
 */
module Format {

  /** `n` copies of the character `c`. */
  function Repeat(c: char, n: nat): (r: string)
    ensures |r| == n
    ensures forall i :: 0 <= i < n ==> r[i] == c
  {
    seq(n, _ => c)
  }

  predicate IsDigit(c: char) {
    '0' <= c <= '9'
  }

  predicate AllDigits(s: string) {
    forall i :: 0 <= i < |s| ==> IsDigit(s[i])
  }

  function DigitValue(c: char): (d: nat)
    requires IsDigit(c)
    ensures d < 10
  {
    c as int - '0' as int
  }

  function DigitChar(d: nat): (c: char)
    requires d < 10
    ensures IsDigit(c) && DigitValue(c) == d
  {
    ('0' as int + d) as char
  }

  /** The value of a string of decimal digits, most significant digit first.
      Leading zeros are allowed, and the empty string reads as 0. */
  function ParseDecimal(s: string): nat
    requires AllDigits(s)
  {
    if s == [] then 0 else 10 * ParseDecimal(s[..|s| - 1]) + DigitValue(s[|s| - 1])
  }

  /** The decimal text of `n`, as `toString()` writes a non-negative integer:
      at least one digit, and no leading zero unless `n` is zero. */
  function Decimal(n: nat): (r: string)
    ensures 1 <= |r| && AllDigits(r)
    ensures r[0] == '0' <==> n == 0
  {
    if n < 10 then [DigitChar(n)] else Decimal(n / 10) + [DigitChar(n % 10)]
  }

  /** `String.prototype.padStart` with a one-character fill: `s` is prefixed
      with fill characters until it is at least `width` long. */
  function PadStart(s: string, width: nat, fill: char): (r: string)
    ensures |r| == if |s| < width then width else |s|
    ensures r[|r| - |s|..] == s
    ensures forall i :: 0 <= i < |r| - |s| ==> r[i] == fill
  {
    if |s| < width then Repeat(fill, width - |s|) + s else s
  }

  /** A minutes field and a two-character seconds field joined by a colon. */
  function Join(minutes: string, seconds: string): (r: string)
    requires |seconds| == 2
    ensures |r| == |minutes| + 3 && r[|r| - 3] == ':'
    ensures r[..|r| - 3] == minutes && r[|r| - 2..] == seconds
  {
    minutes + [':'] + seconds
  }

  /** A clock face for whole minutes and leftover seconds: both written in
      decimal, padded to two digits, and joined by a colon. */
  function Clock(minutes: nat, seconds: nat): (r: string)
    requires seconds < 60
    ensures |r| >= 5 && r[|r| - 3] == ':'
    ensures MinutesField(r) == PadStart(Decimal(minutes), 2, '0')
    ensures SecondsField(r) == PadStart(Decimal(seconds), 2, '0')
  {
    SecondsFieldWidth(seconds);
    Join(PadStart(Decimal(minutes), 2, '0'), PadStart(Decimal(seconds), 2, '0'))
  }

  /** `formatTime`: negative inputs count as zero; the whole minutes and the
      leftover seconds are each written in decimal, padded to two digits, and
      joined by a colon. */
  function FormatTime(totalSeconds: int): (r: string)
    ensures |r| >= 5 && r[|r| - 3] == ':'
    ensures AllDigits(MinutesField(r)) && AllDigits(SecondsField(r))
  {
    var clamped := NonNegative(totalSeconds);
    var r := Clock(clamped / 60, clamped % 60);
    PadKeepsValue(Decimal(clamped / 60), 2);
    PadKeepsValue(Decimal(clamped % 60), 2);
    r
  }

  /** `Math.max(t, 0)`. */
  function NonNegative(t: int): nat {
    if t > 0 then t else 0
  }

  /** The text before the colon of a clock face. */
  function MinutesField(r: string): string
    requires |r| >= 3
  {
    r[..|r| - 3]
  }

  /** The two characters after the colon of a clock face. */
  function SecondsField(r: string): string
    requires |r| >= 2
  {
    r[|r| - 2..]
  }

  /** The number of seconds a clock face written by `FormatTime` shows. */
  function ParseClock(r: string): nat
    requires |r| >= 3 && AllDigits(MinutesField(r)) && AllDigits(SecondsField(r))
  {
    ParseDecimal(MinutesField(r)) * 60 + ParseDecimal(SecondsField(r))
  }

  /** Decimal is a right inverse of ParseDecimal. */
  lemma {:induction false} DecimalRoundTrip(n: nat)
    ensures ParseDecimal(Decimal(n)) == n
  {
    if n >= 10 {
      var s := Decimal(n);
      assert s[..|s| - 1] == Decimal(n / 10);
      DecimalRoundTrip(n / 10);
    }
  }

  /** A number has at most two decimal digits exactly when it is below 100. */
  lemma DecimalAtMostTwoDigits(n: nat)
    ensures |Decimal(n)| <= 2 <==> n < 100
  {
    if n >= 100 {
      assert |Decimal(n / 10)| >= 2;
    }
  }

  lemma SecondsFieldWidth(n: nat)
    requires n < 60
    ensures |PadStart(Decimal(n), 2, '0')| == 2
  {
    DecimalAtMostTwoDigits(n);
  }

  lemma {:induction false} ZerosReadAsZero(k: nat)
    ensures AllDigits(Repeat('0', k))
    ensures ParseDecimal(Repeat('0', k)) == 0
  {
    if k > 0 {
      assert Repeat('0', k)[..k - 1] == Repeat('0', k - 1);
      ZerosReadAsZero(k - 1);
    }
  }

  /** Leading zeros do not change the value of a digit string. */
  lemma {:induction false} LeadingZeros(k: nat, s: string)
    requires AllDigits(s)
    ensures AllDigits(Repeat('0', k) + s)
    ensures ParseDecimal(Repeat('0', k) + s) == ParseDecimal(s)
    decreases |s|
  {
    var z := Repeat('0', k);
    ZerosReadAsZero(k);
    if s == [] {
      assert z + s == z;
    } else {
      var t := s[..|s| - 1];
      LeadingZeros(k, t);
      assert (z + s)[..|z + s| - 1] == z + t;
    }
  }

  /** Zero padding keeps the value of a digit string. */
  lemma PadKeepsValue(s: string, width: nat)
    requires AllDigits(s)
    ensures AllDigits(PadStart(s, width, '0'))
    ensures ParseDecimal(PadStart(s, width, '0')) == ParseDecimal(s)
  {
    if |s| < width {
      LeadingZeros(width - |s|, s);
    }
  }

  /** Reading the minutes field of `FormatTime(t)` gives the whole minutes of
      `max(t, 0)`, reading its seconds field gives the leftover seconds (so the
      field is always 00..59), and together they give back `max(t, 0)`. */
  lemma FormatTimeRoundTrip(t: int)
    ensures AllDigits(MinutesField(FormatTime(t))) && AllDigits(SecondsField(FormatTime(t)))
    ensures ParseDecimal(MinutesField(FormatTime(t))) == NonNegative(t) / 60
    ensures ParseDecimal(SecondsField(FormatTime(t))) == NonNegative(t) % 60 < 60
    ensures ParseClock(FormatTime(t)) == NonNegative(t)
  {
    var clamped := NonNegative(t);
    var m, sec := clamped / 60, clamped % 60;
    var r := FormatTime(t);
    assert r == Clock(m, sec);
    PadKeepsValue(Decimal(m), 2);
    PadKeepsValue(Decimal(sec), 2);
    DecimalRoundTrip(m);
    DecimalRoundTrip(sec);
    assert ParseDecimal(MinutesField(r)) == m;
    assert ParseDecimal(SecondsField(r)) == sec;
    assert m * 60 + sec == clamped;
  }

  /** The clock face is exactly five characters wide (`MM:SS`) precisely for
      the inputs below 100 minutes; longer inputs widen the minutes field. */
  lemma FormatTimeWidth(t: int)
    ensures |FormatTime(t)| == 5 <==> t <= 5999
  {
    var clamped := NonNegative(t);
    var m := clamped / 60;
    var r := FormatTime(t);
    assert r == Clock(m, clamped % 60);
    assert |r| == |MinutesField(r)| + 3;
    assert |MinutesField(r)| == 2 <==> |Decimal(m)| <= 2;
    DecimalAtMostTwoDigits(m);
    MinutesBelowHundred(clamped);
  }

  lemma MinutesBelowHundred(c: nat)
    ensures c / 60 < 100 <==> c <= 5999
  {
    var q, rem := c / 60, c % 60;
    assert c == 60 * q + rem && 0 <= rem < 60;
    if q >= 100 {
      assert c >= 6000;
    }
  }

  /** Zero and every negative input render as `00:00`. */
  lemma FormatTimeNonPositive(t: int)
    requires t <= 0
    ensures FormatTime(t) == "00:00"
  {
    assert NonNegative(t) == 0;
    assert FormatTime(t) == Clock(0, 0);
    ClockZero();
  }

  lemma ClockZero()
    ensures Clock(0, 0) == "00:00"
  {
    assert Decimal(0) == "0";
    assert PadStart("0", 2, '0') == "00";
    assert Join("00", "00") == "00:00";
  }

  /** Distinct non-negative second counts are rendered differently. */
  lemma FormatTimeInjective(a: int, b: int)
    requires 0 <= a && 0 <= b
    ensures FormatTime(a) == FormatTime(b) ==> a == b
  {
    FormatTimeRoundTrip(a);
    FormatTimeRoundTrip(b);
  }
}
