/** The older single-window game loop: its countdown label, a gauge anchored at the
    session start, and the 16:9 video box. */
module Menu {
  import opened Base
  import Clock

  /** `update_numerical_timer` of the single-window loop: the countdown label, which
      simply reads 00:00 once time is up (this loop never ends a session). */
  function MenuTimerText(start: int, now: int): (t: string)
    ensures Clock.ParseClock(t) == Some(Clock.Remaining(start, now))
    ensures now - start >= Clock.SessionSeconds * Clock.MsPerSecond ==> t == "00:00"
    ensures 0 <= now - start < Clock.MsPerSecond ==> t == "01:00"
  {
    Clock.ClockTextRoundTrip(Clock.Remaining(start, now));
    Clock.ClockTextExamples();
    Clock.ClockText(Clock.Remaining(start, now))
  }

  /** `update_gauge_timer` of the single-window loop: 100 minus 20 points per second
      elapsed since the session start, modulo 5 s. Nothing is rotated. */
  function MenuGauge(start: int, now: int): (g: real)
    ensures g == Clock.GaugePercent(start, now)
    ensures 0.0 < g <= 100.0
  {
    var seconds := (((now - start) % Clock.GaugeCycleMs) as real) / 1000.0;
    100.0 - seconds * 20.0
  }

  /** The single-window gauge is the play screen's gauge with the start time as its
      only reset, so it is periodic with a 5 s period and lies in (0, 100]. */
  lemma MenuGaugeIsAnchoredAtStart(start: int, now: int, cycles: nat)
    ensures MenuGauge(start, now) == Clock.GaugePercent(start, now)
    ensures 0.0 < MenuGauge(start, now) <= 100.0
    ensures MenuGauge(start, now + cycles * Clock.GaugeCycleMs) == MenuGauge(start, now)
  {
    Clock.GaugePeriodic(start, now, cycles);
  }

  /** A video box size in pixels. */
  datatype Size = Size(width: int, height: int)

  /** The 16:9 box for a container of `w` by `h` pixels: full width and
      `int(w / 16 * 9)` rows, or, when that is too tall, full height and
      `int(h / 9 * 16)` columns. */
  function Fit(w: nat, h: nat): (r: Size)
    ensures 0 <= r.width <= w && 0 <= r.height <= h
    ensures r.width == w || r.height == h
    ensures r.width == w ==> 16 * r.height <= 9 * r.width < 16 * r.height + 16
    ensures r.width != w ==> 9 * r.width <= 16 * r.height < 9 * r.width + 9
    ensures r.width == w <==> 9 * w < 16 * (h + 1)
  {
    var tall := 9 * w / 16;
    if tall > h then Size(16 * h / 9, h) else Size(w, tall)
  }

  /** No 16:9 box that fits the container is wider or taller than Fit's. */
  lemma FitIsLargest(w: nat, h: nat, a: int, b: int)
    requires 0 <= a <= w && 0 <= b <= h && 16 * b == 9 * a
    ensures a <= Fit(w, h).width && b <= Fit(w, h).height
  {
  }

  /** The frame is resized only when both sides of the box are positive. */
  function ResizeTarget(w: nat, h: nat): (r: Option<Size>)
    ensures r.Some? <==> Fit(w, h).width > 0 && Fit(w, h).height > 0
    ensures r.Some? ==> r.value == Fit(w, h) && r.value.width <= w && r.value.height <= h
    ensures r.Some? ==> w >= 2 && h >= 1
  {
    var box := Fit(w, h);
    if box.width > 0 && box.height > 0 then Some(box) else None
  }
}
