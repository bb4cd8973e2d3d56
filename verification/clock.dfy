/** The session clock: the whole-second countdown, its MM:SS text, and the gauge
    sawtooth. Time stamps are integer milliseconds (`time.time()`
    seconds times 1000). */
module Clock {
  import opened Base

  /** Length of a play session, in seconds. */
  const SessionSeconds: int := 60
  const MsPerSecond: int := 1000
  /** Length of one gauge cycle, in milliseconds (5 s). */
  const GaugeCycleMs: int := 5000

  /** Python's `int(x)` applied to a duration of `ms` milliseconds expressed in
      seconds: the whole number of seconds, truncated toward zero. */
  function WholeSeconds(ms: int): (r: int)
    ensures ms >= 0 ==> 0 <= r && r * MsPerSecond <= ms < r * MsPerSecond + MsPerSecond
    ensures ms < 0 ==> r <= 0 && r * MsPerSecond - MsPerSecond < ms <= r * MsPerSecond
  {
    if ms >= 0 then ms / MsPerSecond else -((-ms) / MsPerSecond)
  }

  /** Seconds left on the countdown: 60 minus the whole seconds elapsed since
      `start`, never below zero. */
  function Remaining(start: int, now: int): (r: nat)
    ensures r == 0 <==> now - start >= SessionSeconds * MsPerSecond
    ensures now >= start ==> r <= SessionSeconds
    ensures 0 <= now - start < SessionSeconds * MsPerSecond ==>
      (SessionSeconds - r) * MsPerSecond <= now - start < (SessionSeconds - r + 1) * MsPerSecond
  {
    var left := SessionSeconds - WholeSeconds(now - start);
    if left < 0 then 0 else left
  }

  /** The countdown never goes up as time goes on. */
  lemma RemainingNeverRises(start: int, now1: int, now2: int)
    requires now1 <= now2
    ensures Remaining(start, now2) <= Remaining(start, now1)
  {
  }

  predicate IsDigit(c: char) {
    '0' <= c <= '9'
  }

  predicate AllDigits(s: string) {
    forall k :: 0 <= k < |s| ==> IsDigit(s[k])
  }

  function DigitChar(d: nat): (c: char)
    requires d < 10
    ensures IsDigit(c)
  {
    (('0' as int) + d) as char
  }

  function DigitValue(c: char): (d: nat)
    requires IsDigit(c)
    ensures d < 10
  {
    (c as int) - ('0' as int)
  }

  /** The decimal digits of `n`, most significant first, without leading zeros. */
  function Decimal(n: nat): (s: string)
    ensures |s| >= 1 && AllDigits(s)
    ensures n < 10 ==> |s| == 1
    ensures 10 <= n < 100 ==> |s| == 2
  {
    if n < 10 then [DigitChar(n)] else Decimal(n / 10) + [DigitChar(n % 10)]
  }

  /** The number a string of decimal digits denotes (leading zeros allowed). */
  function DigitsValue(s: string): (v: nat)
    requires AllDigits(s)
  {
    if |s| == 0 then 0 else DigitsValue(s[..|s| - 1]) * 10 + DigitValue(s[|s| - 1])
  }

  lemma {:induction false} DecimalRoundTrip(n: nat)
    ensures DigitsValue(Decimal(n)) == n
  {
    if n >= 10 {
      DecimalRoundTrip(n / 10);
      var s := Decimal(n);
      assert s[..|s| - 1] == Decimal(n / 10);
    }
  }

  lemma {:induction false} LeadingZeroIsIgnored(s: string)
    requires AllDigits(s)
    ensures AllDigits("0" + s) && DigitsValue("0" + s) == DigitsValue(s)
    decreases |s|
  {
    if |s| > 0 {
      LeadingZeroIsIgnored(s[..|s| - 1]);
      assert ("0" + s)[..|s|] == "0" + s[..|s| - 1];
    }
  }

  /** Python's `f"{n:02d}"`: the decimal digits of `n`, zero-padded to width two. */
  function Pad2(n: nat): (s: string)
    ensures |s| >= 2 && AllDigits(s)
    ensures n < 100 ==> |s| == 2
    ensures DigitsValue(s) == n
  {
    DecimalRoundTrip(n);
    if n < 10 then
      LeadingZeroIsIgnored(Decimal(n));
      "0" + Decimal(n)
    else Decimal(n)
  }

  /** The countdown label: minutes and seconds from `divmod(seconds, 60)`, each
      zero-padded to two digits, joined by a colon. */
  function ClockText(seconds: nat): (t: string)
    ensures |t| >= 5
    ensures seconds < 6000 ==> |t| == 5
  {
    Pad2(seconds / 60) + ":" + Pad2(seconds % 60)
  }

  /** Reads a label of the form `<minutes>:<two-digit seconds>` back into seconds. */
  function ParseClock(t: string): (r: Option<nat>)
  {
    if |t| >= 5 && t[|t| - 3] == ':' && AllDigits(t[..|t| - 3]) && AllDigits(t[|t| - 2..]) then
      Some(DigitsValue(t[..|t| - 3]) * 60 + DigitsValue(t[|t| - 2..]))
    else None
  }

  /** The label loses nothing: reading it back gives the seconds it was made from. */
  lemma ClockTextRoundTrip(seconds: nat)
    ensures ParseClock(ClockText(seconds)) == Some(seconds)
  {
    var m, s := Pad2(seconds / 60), Pad2(seconds % 60);
    var t := ClockText(seconds);
    assert t[..|t| - 3] == m;
    assert t[|t| - 2..] == s;
  }

  /** The labels at the two ends of a session. */
  lemma ClockTextExamples()
    ensures ClockText(60) == "01:00"
    ensures ClockText(59) == "00:59"
    ensures ClockText(0) == "00:00"
  {
  }

  /** The gauge bar, in percent: it starts full at `last` and drains by 20 points per
      second, refilling every 5 s (Python's `%` on a positive modulus never goes
      negative, like Dafny's). */
  function GaugePercent(last: int, now: int): (r: real)
    ensures 0.0 < r <= 100.0
    ensures r == 100.0 <==> (now - last) % GaugeCycleMs == 0
  {
    var phase := (now - last) % GaugeCycleMs;
    100.0 - (phase as real) / 50.0
  }

  /** A full gauge cycle has passed since `last`: time to force a new prompt. */
  predicate GaugeExpired(last: int, now: int) {
    now - last >= GaugeCycleMs
  }

  /** The gauge repeats every 5 s. */
  lemma {:induction false} GaugePeriodic(last: int, now: int, cycles: nat)
    ensures GaugePercent(last, now + cycles * GaugeCycleMs) == GaugePercent(last, now)
  {
    if cycles > 0 {
      GaugePeriodic(last, now, cycles - 1);
      var d := now + (cycles - 1) * GaugeCycleMs - last;
      assert (d + GaugeCycleMs) % GaugeCycleMs == d % GaugeCycleMs;
      assert now + cycles * GaugeCycleMs - last == d + GaugeCycleMs;
    }
  }

  /** Within one cycle the gauge only drains, 20 points per elapsed second. */
  lemma GaugeDrainsWithinCycle(last: int, now1: int, now2: int)
    requires last <= now1 <= now2 && !GaugeExpired(last, now2)
    ensures GaugePercent(last, now2) <= GaugePercent(last, now1)
    ensures GaugePercent(last, now1) == 100.0 - ((now1 - last) as real) / 50.0
  {
  }
}
