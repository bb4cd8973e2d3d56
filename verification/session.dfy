/** The play-session engine of the play screen: starting and stopping a session and
    the per-frame update (match check, countdown, gauge), as one immutable record and
    pure functions over it. */
module PlaySession {
  import opened Base
  import Poses
  import Clock
  import opened Matching
  import Prompts

  /** The play screen's session state. Time stamps are milliseconds. `timerText`
      and `gaugePercent` are what the countdown label and the gauge bar show. */
  datatype Session = Session(
    poses: seq<string>,
    score: nat,
    prompt: string,
    promptIndex: int,
    startTime: int,
    lastGaugeChange: int,
    lastMatched: int,
    running: bool,
    debug: bool,
    timerText: string,
    gaugePercent: real)

  /** The pose list is never empty, the prompt is one of its poses and the debug
      index points into it. */
  predicate Valid(s: Session) {
    && |s.poses| > 0
    && s.prompt in s.poses
    && 0 <= s.promptIndex < |s.poses|
  }

  /** The label the countdown shows before the first tick. */
  const FullTimerText: string := "01:00"

  /** The screen's constructor: loads the poses, draws a first prompt, stamps the
      start and gauge times with `now` and the last match with time 0. */
  function Create(file: Option<seq<string>>, now: int, draw: nat): (s: Session)
    ensures Valid(s)
    ensures s.poses == Poses.LoadPoses(file)
    ensures s.score == 0 && !s.running && !s.debug && s.promptIndex == 0
    ensures s.startTime == now && s.lastGaugeChange == now && s.lastMatched == 0
  {
    var poses := Poses.LoadPoses(file);
    Session(poses, 0, Prompts.Pick(poses, draw), 0, now, now, 0, false, false, FullTimerText, 100.0)
  }

  /** A session after one operation, and the score handed to the game-over screen
      when the operation asks for it. */
  datatype Step = Step(session: Session, gameOver: Option<nat>)

  /** `start_game_loop(debug)`. When the camera does not open, the score of the
      previous session is reported for the game-over screen and nothing is reset;
      otherwise the score is zeroed, the start and gauge times are stamped, the
      first prompt is chosen (the first pose in debug mode, a random pose otherwise)
      and the session runs. The time of the last match is left alone. */
  function Start(s: Session, debug: bool, cameraOk: bool, now: int, draw: nat): (r: Step)
    requires Valid(s)
    ensures Valid(r.session)
    ensures r.session.poses == s.poses && r.session.debug == debug && r.session.lastMatched == s.lastMatched
    ensures !cameraOk ==> r.gameOver == Some(s.score) && r.session == s.(debug := debug)
    ensures cameraOk ==> r.gameOver.None? && r.session.running && r.session.score == 0
    ensures cameraOk ==> r.session.startTime == now && r.session.lastGaugeChange == now
    ensures cameraOk && debug ==> r.session.promptIndex == 0 && r.session.prompt == s.poses[0]
    ensures cameraOk && !debug ==> r.session.prompt in s.poses && r.session.promptIndex == s.promptIndex
    ensures cameraOk && !debug ==> r.session.timerText == FullTimerText
  {
    var s1 := s.(debug := debug);
    if !cameraOk then Step(s1, Some(s.score))
    else
      var s2 := s1.(startTime := now, score := 0, lastGaugeChange := now);
      var s3 :=
        if debug then s2.(promptIndex := 0, prompt := s.poses[0])
        else s2.(timerText := FullTimerText, prompt := Prompts.Pick(s.poses, draw));
      Step(s3.(running := true), None)
  }

  /** Outside debug mode any pose can be the first prompt of a session. */
  lemma StartCanOpenOnAnyPose(s: Session, now: int, p: string)
    requires Valid(s) && p in s.poses
    ensures exists draw: nat :: Start(s, false, true, now, draw).session.prompt == p
  {
    Prompts.PickCanReachAny(s.poses, p);
    var draw: nat :| Prompts.Pick(s.poses, draw) == p;
    assert Start(s, false, true, now, draw).session.prompt == p;
  }

  /** `stop_game_loop`: the session stops and nothing else changes (releasing the
      camera is not modelled). */
  function Stop(s: Session): (r: Session)
    ensures !r.running
    ensures r.(running := s.running) == s
  {
    s.(running := false)
  }

  /** The frame was read and its classification matches the prompt. */
  predicate Matches(s: Session, frame: Option<Classification>, now: int) {
    frame.Some? && IsMatch(frame.value, s.prompt, s.lastMatched, now)
  }

  /** The prompt change shared by a match and a gauge time-out. */
  function Rotated(s: Session, draw: nat): (r: Session)
    requires Valid(s)
    ensures Valid(r)
    ensures r.(prompt := s.prompt, promptIndex := s.promptIndex) == s
    ensures s.debug ==> r.promptIndex == Prompts.NextIndex(s.promptIndex, |s.poses|) && r.prompt == s.poses[r.promptIndex]
    ensures !s.debug ==> r.promptIndex == s.promptIndex
    ensures !s.debug && Prompts.HasOther(s.poses, s.prompt) ==> r.prompt != s.prompt
    ensures !s.debug && !Prompts.HasOther(s.poses, s.prompt) ==> r.prompt == s.prompt
  {
    var rot := Prompts.Rotate(s.poses, s.prompt, s.promptIndex, s.debug, draw);
    s.(prompt := rot.prompt, promptIndex := rot.index)
  }

  /** The match block of `update_game`: on a match the score goes up by one, the
      prompt changes and both the match time and the gauge time become `now`. */
  function MatchStep(s: Session, frame: Option<Classification>, now: int, draw: nat): (r: Session)
    requires Valid(s)
    ensures Valid(r)
    ensures !Matches(s, frame, now) ==> r == s
    ensures Matches(s, frame, now) ==> r.score == s.score + 1 && r.lastMatched == now && r.lastGaugeChange == now
    ensures Matches(s, frame, now) ==>
      r.(prompt := s.prompt, promptIndex := s.promptIndex, score := s.score, lastMatched := s.lastMatched,
         lastGaugeChange := s.lastGaugeChange) == s
    ensures Matches(s, frame, now) && s.debug ==>
      r.promptIndex == Prompts.NextIndex(s.promptIndex, |s.poses|) && r.prompt == s.poses[r.promptIndex]
    ensures Matches(s, frame, now) && !s.debug && Prompts.HasOther(s.poses, s.prompt) ==>
      r.prompt != s.prompt
  {
    if Matches(s, frame, now) then
      Rotated(s, draw).(score := s.score + 1, lastMatched := now, lastGaugeChange := now)
    else s
  }

  /** `update_numerical_timer`: at zero the session is closed and its score goes to
      the game-over screen; otherwise the label shows the seconds left. */
  function CountdownStep(s: Session, now: int): (r: Step)
    ensures r.gameOver.Some? <==> Clock.Remaining(s.startTime, now) == 0
    ensures r.gameOver.Some? ==> r.gameOver.value == s.score && r.session == s.(running := false)
    ensures r.gameOver.None? ==>
      r.session.timerText == Clock.ClockText(Clock.Remaining(s.startTime, now))
      && r.session.(timerText := s.timerText) == s
  {
    var left := Clock.Remaining(s.startTime, now);
    if left == 0 then Step(Stop(s), Some(s.score))
    else Step(s.(timerText := Clock.ClockText(left)), None)
  }

  /** While the session lasts, the countdown label reads back as the whole seconds
      left. */
  lemma CountdownLabelReadsBack(s: Session, now: int)
    requires CountdownStep(s, now).gameOver.None?
    ensures Clock.ParseClock(CountdownStep(s, now).session.timerText) == Some(Clock.Remaining(s.startTime, now))
    ensures 0 < Clock.Remaining(s.startTime, now) <= Clock.SessionSeconds || now < s.startTime
  {
    Clock.ClockTextRoundTrip(Clock.Remaining(s.startTime, now));
  }

  /** `update_gauge_timer`: the bar is redrawn, and after a full cycle the prompt
      changes and the gauge time becomes `now`. The score is not touched. */
  function GaugeStep(s: Session, now: int, draw: nat): (r: Session)
    requires Valid(s)
    ensures Valid(r)
    ensures r.gaugePercent == Clock.GaugePercent(s.lastGaugeChange, now) && 0.0 < r.gaugePercent <= 100.0
    ensures !Clock.GaugeExpired(s.lastGaugeChange, now) ==> r.(gaugePercent := s.gaugePercent) == s
    ensures Clock.GaugeExpired(s.lastGaugeChange, now) ==>
      r.lastGaugeChange == now
      && r.(prompt := s.prompt, promptIndex := s.promptIndex, lastGaugeChange := s.lastGaugeChange,
            gaugePercent := s.gaugePercent) == s
    ensures Clock.GaugeExpired(s.lastGaugeChange, now) && !s.debug && Prompts.HasOther(s.poses, s.prompt) ==>
      r.prompt != s.prompt
  {
    var shown := s.(gaugePercent := Clock.GaugePercent(s.lastGaugeChange, now));
    if Clock.GaugeExpired(s.lastGaugeChange, now) then Rotated(shown, draw).(lastGaugeChange := now)
    else shown
  }

  /** One call of `update_game` at time `now`; `frame` is the recognizer's result,
      None when no frame could be read, and `draw` stands for the random choice. It
      does nothing unless the session runs. The match check comes first; outside
      debug mode the countdown and then the gauge follow (the gauge even in the
      tick in which the countdown closes the session). */
  function Tick(s: Session, frame: Option<Classification>, now: int, draw: nat): (r: Step)
    requires Valid(s)
    ensures Valid(r.session)
    ensures !s.running ==> r == Step(s, None)
    ensures r.session.poses == s.poses && r.session.debug == s.debug && r.session.startTime == s.startTime
    ensures r.session.score == if s.running && Matches(s, frame, now) then s.score + 1 else s.score
    ensures s.running && Matches(s, frame, now) ==> r.session.lastMatched == now && r.session.lastGaugeChange == now
    ensures !(s.running && Matches(s, frame, now)) ==> r.session.lastMatched == s.lastMatched
    ensures s.running && Matches(s, frame, now) && !s.debug && Prompts.HasOther(s.poses, s.prompt) ==>
      r.session.prompt != s.prompt
    ensures s.running && s.debug && Matches(s, frame, now) ==>
      r.session.promptIndex == Prompts.NextIndex(s.promptIndex, |s.poses|) && r.session.prompt == s.poses[r.session.promptIndex]
    ensures s.debug ==> r.gameOver.None? && r.session.running == s.running
    ensures s.debug && !Matches(s, frame, now) ==> r.session == s
    ensures s.running && !s.debug ==> (r.gameOver.Some? <==> Clock.Remaining(s.startTime, now) == 0)
    ensures s.running && !s.debug ==> (r.session.running <==> now - s.startTime < Clock.SessionSeconds * Clock.MsPerSecond)
    ensures r.gameOver.Some? ==> r.gameOver.value == r.session.score && !r.session.running
    ensures s.running && !s.debug && Clock.Remaining(s.startTime, now) > 0 ==>
      r.session.timerText == Clock.ClockText(Clock.Remaining(s.startTime, now))
    ensures s.running && !s.debug ==>
      r.session.gaugePercent == Clock.GaugePercent(if Matches(s, frame, now) then now else s.lastGaugeChange, now)
    ensures s.running && !s.debug && !Matches(s, frame, now) && Clock.GaugeExpired(s.lastGaugeChange, now) ==>
      r.session.lastGaugeChange == now && (Prompts.HasOther(s.poses, s.prompt) ==> r.session.prompt != s.prompt)
    ensures s.running && !Matches(s, frame, now) && !Clock.GaugeExpired(s.lastGaugeChange, now) ==>
      r.session.lastGaugeChange == s.lastGaugeChange && r.session.prompt == s.prompt
  {
    if !s.running then Step(s, None)
    else
      var matched := MatchStep(s, frame, now, draw);
      if matched.debug then Step(matched, None)
      else
        var counted := CountdownStep(matched, now);
        Step(GaugeStep(counted.session, now, draw), counted.gameOver)
  }

  /** What the host supplies for one tick. */
  datatype TickInput = TickInput(frame: Option<Classification>, now: int, draw: nat)

  /** The session after a sequence of ticks. */
  function Run(s: Session, inputs: seq<TickInput>): (r: Session)
    requires Valid(s)
    ensures Valid(r) && r.poses == s.poses && r.debug == s.debug && r.startTime == s.startTime
    ensures s.score <= r.score <= s.score + |inputs|
    ensures !s.running ==> r == s
    ensures s.debug ==> r.running == s.running
    decreases |inputs|
  {
    if |inputs| == 0 then s
    else
      var i := inputs[0];
      Run(Tick(s, i.frame, i.now, i.draw).session, inputs[1..])
  }

  /** Two matching frames less than the cooldown apart score only once. */
  lemma CooldownBlocksSecondScore(s: Session, f1: Option<Classification>, t1: int, d1: nat,
                                  f2: Option<Classification>, t2: int, d2: nat)
    requires Valid(s) && s.running && Matches(s, f1, t1)
    requires t2 - t1 <= CooldownMs
    ensures var s1 := Tick(s, f1, t1, d1).session;
      Tick(s1, f2, t2, d2).session.score == s.score + 1
  {
    var s1 := Tick(s, f1, t1, d1).session;
    assert !Matches(s1, f2, t2);
  }

  /** A session outside debug mode keeps running over a run of ticks exactly as long
      as every tick falls within 60 s of its start: the first tick from then on ends
      it, and an ended session stays ended. */
  lemma {:induction false} RunStopsAtSixtySeconds(s: Session, inputs: seq<TickInput>)
    requires Valid(s) && s.running && !s.debug
    ensures Run(s, inputs).running <==>
      forall k :: 0 <= k < |inputs| ==> inputs[k].now - s.startTime < Clock.SessionSeconds * Clock.MsPerSecond
    decreases |inputs|
  {
    if |inputs| > 0 {
      var i := inputs[0];
      var next := Tick(s, i.frame, i.now, i.draw).session;
      assert Run(s, inputs) == Run(next, inputs[1..]);
      assert next.running <==> i.now - s.startTime < Clock.SessionSeconds * Clock.MsPerSecond;
      if next.running {
        RunStopsAtSixtySeconds(next, inputs[1..]);
        assert forall k :: 1 <= k < |inputs| ==> inputs[k] == inputs[1..][k - 1];
      } else {
        assert Run(next, inputs[1..]) == next;
      }
    }
  }

  /** A session started at `t0` outside debug mode runs through every tick before
      `t0` + 60 s and is over after any tick from then on. */
  lemma SessionLastsSixtySeconds(s: Session, t0: int, d0: nat, inputs: seq<TickInput>)
    requires Valid(s)
    ensures Run(Start(s, false, true, t0, d0).session, inputs).running <==>
      forall k :: 0 <= k < |inputs| ==> inputs[k].now - t0 < 60000
  {
    RunStopsAtSixtySeconds(Start(s, false, true, t0, d0).session, inputs);
  }

  /** No frame, or a recognizer result not confident enough to match anything. */
  predicate Unsure(frame: Option<Classification>) {
    frame.None? || frame.value.confidence <= MatchThreshold
  }

  /** While no frame is confident enough and the gauge has not run a full cycle
      since its last reset, ticks leave the prompt and the gauge time alone. */
  lemma {:induction false} QuietTicksKeepThePrompt(s: Session, inputs: seq<TickInput>)
    requires Valid(s)
    requires forall k :: 0 <= k < |inputs| ==>
      Unsure(inputs[k].frame) && inputs[k].now < s.lastGaugeChange + Clock.GaugeCycleMs
    ensures Run(s, inputs).lastGaugeChange == s.lastGaugeChange && Run(s, inputs).prompt == s.prompt
    decreases |inputs|
  {
    if |inputs| > 0 {
      var i := inputs[0];
      var next := Tick(s, i.frame, i.now, i.draw).session;
      assert !Matches(s, i.frame, i.now) && !Clock.GaugeExpired(s.lastGaugeChange, i.now);
      assert forall k :: 0 <= k < |inputs| - 1 ==> inputs[1..][k] == inputs[k + 1];
      QuietTicksKeepThePrompt(next, inputs[1..]);
    }
  }

  /** A gauge time-out at `t1` changes the prompt (when another pose exists) and
      resets the gauge; for the next 5 s, while no frame is confident enough to
      match, the gauge does not fire again. */
  lemma GaugeFiresOncePerCycle(s: Session, f1: Option<Classification>, t1: int, d1: nat, inputs: seq<TickInput>)
    requires Valid(s) && s.running && !s.debug
    requires Unsure(f1) && Clock.GaugeExpired(s.lastGaugeChange, t1)
    requires forall k :: 0 <= k < |inputs| ==>
      Unsure(inputs[k].frame) && t1 <= inputs[k].now < t1 + Clock.GaugeCycleMs
    ensures var s1 := Tick(s, f1, t1, d1).session;
      && s1.lastGaugeChange == t1
      && (Prompts.HasOther(s.poses, s.prompt) ==> s1.prompt != s.prompt)
      && Run(s1, inputs).lastGaugeChange == t1 && Run(s1, inputs).prompt == s1.prompt
  {
    var s1 := Tick(s, f1, t1, d1).session;
    QuietTicksKeepThePrompt(s1, inputs);
  }

  /** Every tick of `inputs` brings a matching frame, each judged against the
      session as the ticks before it left it. */
  predicate AllMatch(s: Session, inputs: seq<TickInput>)
    requires Valid(s)
    decreases |inputs|
  {
    || |inputs| == 0
    || (&& Matches(s, inputs[0].frame, inputs[0].now)
        && AllMatch(Tick(s, inputs[0].frame, inputs[0].now, inputs[0].draw).session, inputs[1..]))
  }

  /** The prompt on screen after each tick of `inputs`. */
  function PromptsShown(s: Session, inputs: seq<TickInput>): (shown: seq<string>)
    requires Valid(s)
    ensures |shown| == |inputs|
    decreases |inputs|
  {
    if |inputs| == 0 then []
    else
      var next := Tick(s, inputs[0].frame, inputs[0].now, inputs[0].draw).session;
      [next.prompt] + PromptsShown(next, inputs[1..])
  }

  /** In a running debug session, successive matches show the round-robin tour of
      the pose list from the current index. */
  lemma {:induction false} DebugMatchesFollowTheTour(s: Session, inputs: seq<TickInput>)
    requires Valid(s) && s.running && s.debug && AllMatch(s, inputs)
    ensures PromptsShown(s, inputs) == Prompts.DebugTour(s.poses, s.promptIndex, |inputs|)
    decreases |inputs|
  {
    if |inputs| > 0 {
      var i := inputs[0];
      var next := Tick(s, i.frame, i.now, i.draw).session;
      assert next.promptIndex == Prompts.NextIndex(s.promptIndex, |s.poses|);
      DebugMatchesFollowTheTour(next, inputs[1..]);
    }
  }

  /** A debug session opens on the first pose; matching one pose after another,
      the player is shown the rest of the list in file order, and the match after
      the last pose brings back the first. */
  lemma DebugSessionShowsEveryPoseInOrder(s: Session, t0: int, d0: nat, inputs: seq<TickInput>)
    requires Valid(s) && |inputs| == |s.poses|
    requires AllMatch(Start(s, true, true, t0, d0).session, inputs)
    ensures Start(s, true, true, t0, d0).session.prompt == s.poses[0]
    ensures forall k :: 0 < k < |s.poses| ==> PromptsShown(Start(s, true, true, t0, d0).session, inputs)[k - 1] == s.poses[k]
    ensures PromptsShown(Start(s, true, true, t0, d0).session, inputs)[|s.poses| - 1] == s.poses[0]
  {
    var started := Start(s, true, true, t0, d0).session;
    DebugMatchesFollowTheTour(started, inputs);
    Prompts.DebugTourVisitsEveryPose(s.poses);
  }

  /** Starting a new session does not reset the time of the last match, so a
      replay begun less than 2 s after a match cannot score in its first 2 s. */
  lemma CooldownCarriesIntoReplay(s: Session, debug: bool, t0: int, d0: nat,
                                  frame: Option<Classification>, now: int, draw: nat)
    requires Valid(s) && now - s.lastMatched <= CooldownMs
    ensures var started := Start(s, debug, true, t0, d0).session;
      Tick(started, frame, now, draw).session.score == 0
  {
  }

  /** A worked example: two poses, the second one prompted, a confident matching
      frame one second in, then the other pose half a second later. */
  lemma TwoPoseScenario(t0: int)
    requires t0 > 2000
    ensures var s := Session(["thumbs up", "piece"], 7, "thumbs up", 0, 0, 0, 0, false, false, FullTimerText, 100.0);
      var started := Start(s, false, true, t0, 1).session;
      var first := Tick(started, Some(Classification("piece", 0.9)), t0 + 1000, 0).session;
      var second := Tick(first, Some(Classification("thumbs up", 0.9)), t0 + 1500, 0).session;
      && started.prompt == "piece"
      && first.score == 1 && first.prompt == "thumbs up" && first.lastMatched == t0 + 1000
      && second.score == 1 && second.running
  {
    var poses := ["thumbs up", "piece"];
    var s := Session(poses, 7, "thumbs up", 0, 0, 0, 0, false, false, FullTimerText, 100.0);
    assert Valid(s) by { assert s.prompt == poses[0]; }
    var started := Start(s, false, true, t0, 1).session;
    assert started == Session(poses, 0, "piece", 0, t0, t0, 0, true, false, FullTimerText, 100.0);
    TwoPoseTicks(t0);
  }

  /** The two ticks of TwoPoseScenario, from the session as started. */
  lemma TwoPoseTicks(t0: int)
    requires t0 > 2000
    ensures var started := Session(["thumbs up", "piece"], 0, "piece", 0, t0, t0, 0, true, false, FullTimerText, 100.0);
      var first := Tick(started, Some(Classification("piece", 0.9)), t0 + 1000, 0).session;
      var second := Tick(first, Some(Classification("thumbs up", 0.9)), t0 + 1500, 0).session;
      && first.score == 1 && first.prompt == "thumbs up" && first.lastMatched == t0 + 1000
      && second.score == 1 && second.running
  {
    var poses := ["thumbs up", "piece"];
    var started := Session(poses, 0, "piece", 0, t0, t0, 0, true, false, FullTimerText, 100.0);
    assert Valid(started) by { assert started.prompt == poses[1]; }
    assert Matches(started, Some(Classification("piece", 0.9)), t0 + 1000);
    var first := Tick(started, Some(Classification("piece", 0.9)), t0 + 1000, 0).session;
    assert "thumbs up" in poses && "thumbs up" != "piece";
    assert first.prompt in poses && first.prompt != "piece";
    assert first.prompt == "thumbs up";
    assert !Matches(first, Some(Classification("thumbs up", 0.9)), t0 + 1500);
  }
}
