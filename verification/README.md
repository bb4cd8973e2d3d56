# Play-session engine of the gesture game, in Dafny

The game shows a camera feed. An external hand-pose recognizer classifies each frame as a pose label and a confidence. The player scores by showing the prompted pose before a 60-second countdown runs out, and a 5-second gauge forces a new prompt when the player is too slow. This project models the logic around that loop:

- the play screen's session engine (`screens/game_play_screen.py`): loading the pose list, the match rule, the score and prompt changes, the countdown and the gauge, starting and stopping a session;
- the shell that switches screens (`main_app.py`): when the session is stopped, started and handed to the game-over screen;
- the older single-window loop (`game_menu.py`): its countdown label, its start-anchored gauge and the 16:9 box fitted into the video area.

The model is functional. A `PlaySession.Session` record holds the pose list, score, prompt, debug index, time stamps, the running and debug flags, and what the countdown label and gauge bar show. `Start`, `Stop` and `Tick` are pure functions on that record. `Navigation.App` adds the raised screen and the score shown on the game-over screen.

Modelling choices:
- Time stamps are integer milliseconds.
- Python's `int()` on elapsed seconds truncates toward zero (`Clock.WholeSeconds`).
- Confidence is an exact real.
- The recognizer's output is an input to `Tick`. It is `None` when no frame could be read.
- Each `random.choice` is an explicit `draw` input that picks `list[draw % len]`. Lemmas show that every candidate is reached by some draw.
- Whether the camera opens is a boolean input to `Start`.

Modules: `Base` (Option), `Poses`, `Clock`, `Matching`, `Prompts`, `PlaySession`, `Navigation`, `Menu`.

The model follows the code in these points:
- One tick runs the match check first, then the countdown, then the gauge. The gauge still runs in the tick in which the countdown closes the session.
- In debug mode neither the countdown nor the gauge runs, so a debug session never ends and is never rotated by the gauge.
- When the camera does not open, the score of the previous session is reported. The session record is not reset.
- The time of the last match starts at 0 (the epoch) and is never reset by a new session. A replay begun within 2 s of a match therefore cannot score at once.
- Stopping by navigation does not report the score. Only the countdown and a camera failure do.

## Model

| member | source | states |
|---|---|---|
| Poses.Strip | screens/game_play_screen.py:49 | stripping a line gives the empty string exactly when the line is all white space; otherwise the result starts and ends with a non-space character |
| Poses.StripIsTheInnerSlice | screens/game_play_screen.py:49 | strip returns exactly the slice between the white-space margins |
| Poses.StripIdempotent | screens/game_play_screen.py:49 | stripping a stripped line changes nothing |
| Poses.NonBlankLines | screens/game_play_screen.py:49 | the positions of the non-blank lines, strictly increasing, and every non-blank line's position is among them |
| Poses.Kept | screens/game_play_screen.py:49 | one kept pose per non-blank line, each non-empty and already stripped |
| Poses.KeptInFileOrder | screens/game_play_screen.py:49 | the kept poses follow the file: no lines keep nothing, and a further line adds its stripped text at the end of the list, or nothing when it is blank |
| Poses.KeptMembership | screens/game_play_screen.py:49 | a name is kept if and only if it is non-empty and some line of the file strips to it |
| Poses.LoadPoses | screens/game_play_screen.py:46-56 | the pose list is never empty and holds only stripped names; a missing file or a file of blank lines gives ["thumbs up", "piece"]; otherwise it is the kept lines in file order |
| Clock.WholeSeconds | screens/game_play_screen.py:165 | the whole seconds in a duration, truncated toward zero as Python's int() does |
| Clock.Remaining | screens/game_play_screen.py:165-168 | the countdown is zero exactly when 60 s or more have elapsed; it is at most 60 once the start time has passed; before that it is 60 minus the whole seconds elapsed |
| Clock.RemainingNeverRises | screens/game_play_screen.py:165-168 | the countdown never goes up as time goes on |
| Clock.Pad2 | screens/game_play_screen.py:175 | the two-digit zero-padded form is all digits, at least two of them, exactly two below 100, and reads back as the number |
| Clock.ClockText | screens/game_play_screen.py:174-175 | the MM:SS label is at least 5 characters long, and exactly 5 below 100 minutes |
| Clock.ClockTextRoundTrip | screens/game_play_screen.py:174-175 | reading the MM:SS label back gives the seconds it was made from |
| Clock.ClockTextExamples | game_menu.py:93-94 | 60 s reads "01:00", 59 s "00:59", 0 s "00:00" |
| Clock.GaugePercent | screens/game_play_screen.py:180 | the gauge lies in (0, 100] and is full exactly at whole multiples of 5 s after the last reset |
| Clock.GaugePeriodic | screens/game_play_screen.py:180 | the gauge repeats every 5 s |
| Clock.GaugeExpired | screens/game_play_screen.py:183 | a full 5 s cycle has passed since the last reset (inclusive comparison) |
| Clock.GaugeDrainsWithinCycle | screens/game_play_screen.py:180 | within the first cycle the gauge only drains, 20 points per second |
| Clock.DecimalRoundTrip | screens/game_play_screen.py:175 | the decimal digits of a number read back as the number |
| Matching.IsMatch | screens/game_play_screen.py:229-231 | a frame matches when its label is the prompt, its confidence is strictly above 0.8, and strictly more than 2 s have passed since the last match; the lemmas below pin each boundary |
| Matching.ThresholdIsStrict | screens/game_play_screen.py:229-231 | a confidence of exactly 0.8 never matches; 0.81 on the prompted pose after the cooldown does |
| Matching.CooldownIsStrict | screens/game_play_screen.py:229-231 | exactly 2 s after the last match is still blocked; 1 ms later a confident prompted pose matches |
| Matching.WrongLabelNeverMatches | screens/game_play_screen.py:229 | a label other than the prompt never matches |
| Matching.MatchIsMonotone | screens/game_play_screen.py:229-231 | a match stays a match with higher confidence or at a later time |
| Prompts.Others | screens/game_play_screen.py:193 | the candidates are exactly the poses that differ from the current prompt |
| Prompts.Pick | screens/game_play_screen.py:196 | a random choice returns one of the candidates |
| Prompts.PickCanReachAny | screens/game_play_screen.py:196 | every candidate is a possible random choice |
| Prompts.NextIndex | screens/game_play_screen.py:190 | the debug index stays in [0, len) and steps to the next position, wrapping to 0 after the last |
| Prompts.Rotate | screens/game_play_screen.py:187-198 | debug mode: the index steps round the list and the prompt is the pose there. Otherwise the index is kept and the new prompt is a pose different from the current one; when no such pose exists the prompt stays |
| Prompts.RotateCanReachAnyOther | screens/game_play_screen.py:192-198 | outside debug mode every pose other than the current one can come next |
| Prompts.DebugTour | screens/game_play_screen.py:189-191 | n debug changes show n prompts |
| Prompts.DebugTourIsRotate | screens/game_play_screen.py:189-191 | each step of the tour is a debug-mode prompt change |
| Prompts.DebugTourWalksTheList | screens/game_play_screen.py:189-191 | the k-th debug change shows the pose k+1 places down the list, and the first pose after the last |
| Prompts.DebugTourVisitsEveryPose | screens/game_play_screen.py:189-191 | from index 0, the next len-1 debug changes show the rest of the list in order, and one more returns to the first pose |
| PlaySession.Create | screens/game_play_screen.py:36-60 | a fresh session has a valid prompt from the loaded poses, score 0, index 0, start and gauge times now, last match at time 0, and is not running |
| PlaySession.Start | screens/game_play_screen.py:73-107 | camera failure: the old score is reported and only the debug flag changes. Success: score 0, start and gauge times now, running, prompt the first pose in debug mode or some pose otherwise. The last match time is kept either way |
| PlaySession.StartCanOpenOnAnyPose | screens/game_play_screen.py:103-104 | outside debug mode every pose can be a session's first prompt |
| PlaySession.Stop | screens/game_play_screen.py:110-112 | stopping clears the running flag and changes nothing else |
| PlaySession.Rotated | screens/game_play_screen.py:187-198 | a prompt change keeps the session valid and touches only prompt and index. Debug mode: the index steps round the list and the prompt is the pose there. Otherwise the index stays, and the prompt moves to a different pose when one exists and stays when none does |
| PlaySession.MatchStep | screens/game_play_screen.py:228-238 | without a match nothing changes; a match adds one to the score, sets the match and gauge times to now, and changes the prompt (round-robin in debug mode, to a different pose otherwise); nothing else changes |
| PlaySession.CountdownStep | screens/game_play_screen.py:164-176 | the session is stopped and its score reported exactly when no whole second is left; otherwise only the label changes, to the MM:SS text of the seconds left |
| PlaySession.CountdownLabelReadsBack | screens/game_play_screen.py:165-176 | while the session lasts, the label reads back as the whole seconds left, between 1 and 60 once the start time has passed |
| PlaySession.GaugeStep | screens/game_play_screen.py:178-185 | the bar shows the gauge value, in (0, 100]. Before a full cycle nothing else changes. After one, the gauge time becomes now and the prompt changes (to a different pose when one exists outside debug mode), and nothing else changes |
| PlaySession.Tick | screens/game_play_screen.py:201-244 | nothing happens unless running. The score rises by exactly one on a match, otherwise not. A match sets both the match and gauge times to now and changes the prompt; otherwise the match time stays. Debug mode: never ends, a match steps the index round the list and shows the pose there, and without a match nothing changes. Otherwise the session ends, handing its score on, exactly when 60 s have elapsed; the label shows the seconds left; an expired gauge changes the prompt and resets the gauge time without touching the score |
| PlaySession.Run | screens/game_play_screen.py:201-244 | over any sequence of ticks the session stays valid, the score rises by at most one per tick, a stopped session stays as it is, and a debug session never stops |
| PlaySession.CooldownBlocksSecondScore | screens/game_play_screen.py:229-237 | two matching frames no more than 2 s apart score once |
| PlaySession.RunStopsAtSixtySeconds | screens/game_play_screen.py:164-172 | a running session outside debug mode is still running after a run of ticks exactly when every tick fell within 60 s of its start |
| PlaySession.SessionLastsSixtySeconds | screens/game_play_screen.py:164-172 | a session started at t0 is still running after any run of ticks before t0 + 60 s, and is over after any run that holds a tick from then on |
| PlaySession.QuietTicksKeepThePrompt | screens/game_play_screen.py:178-185 | over any run of ticks with no confident frame and no tick a full cycle after the last gauge reset, the prompt and the gauge time stay as they are |
| PlaySession.GaugeFiresOncePerCycle | screens/game_play_screen.py:178-185 | a gauge time-out at t1 resets the gauge to t1 and changes the prompt when another pose exists; over every run of ticks in the next 5 s with no confident frame the gauge fires no more |
| PlaySession.DebugMatchesFollowTheTour | screens/game_play_screen.py:228-238 | in a running debug session, a run of matching ticks shows exactly the round-robin tour of the list from the current index |
| PlaySession.DebugSessionShowsEveryPoseInOrder | screens/game_play_screen.py:100-102 | a debug session opens on the first pose; matching one pose after another, the player is shown the rest of the list in file order, and the match after the last pose brings back the first |
| PlaySession.CooldownCarriesIntoReplay | screens/game_play_screen.py:83-107 | a new session does not reset the last match time, so it cannot score within 2 s of the previous session's last match |
| PlaySession.TwoPoseScenario | screens/game_play_screen.py:228-238 | with poses "thumbs up" and "piece", a confident "piece" one second in scores and moves the prompt to "thumbs up"; "thumbs up" half a second later does not score |
| Navigation.ScreenNamed | main_app.py:56 | a name finds the screen registered under it, and only that one; any other name finds none (the KeyError case) |
| Navigation.RegistryIsExact | main_app.py:29-32 | exactly three screens are registered under three distinct class names, and a name finds a screen only if it is that screen's name |
| Navigation.Launch | main_app.py:27-37 | the shell starts on the start screen with no session running |
| Navigation.Raise | main_app.py:45-57 | the requested screen is raised; the session is stopped if and only if the play screen was the raised one |
| Navigation.ShowGameOver | main_app.py:63-67 | the final score is stored on the game-over screen, which is raised, and no session is left running |
| Navigation.ShowFrame | main_app.py:43-61 | a session runs only while the play screen is raised. Leaving the play screen stops the session. Going to the play screen starts a non-debug session with score 0, or, when the camera fails, shows the game-over screen with the stale score |
| Navigation.ReplayRestartsTheSession | main_app.py:52-61 | play to play stops the running session and starts a new one |
| Navigation.AppTick | screens/game_play_screen.py:251-253 | a session that times out stops, and its score is shown on the game-over screen; otherwise the raised screen is unchanged |
| Navigation.FirstMapped | main_app.py:46-50 | the current screen is the first registered screen that reports itself mapped: the start screen whenever it is mapped, else the play screen whenever it is mapped, else the game-over screen if mapped, and none when nothing is mapped |
| Navigation.RaiseAsWritten | main_app.py:46-57 | the code as written stops the session only if the first mapped frame is the play screen |
| Navigation.RaiseAsWrittenAgreesWhenOnlyShownIsMapped | main_app.py:46-53 | if only the raised frame counted as mapped, the code as written would behave as Raise |
| Navigation.RaiseAsWrittenLeavesSessionRunning | main_app.py:46-53 | with all frames mapped, leaving the play screen as written keeps the session running behind another screen; Raise stops it |
| Menu.MenuTimerText | game_menu.py:88-95 | the label reads back as max(0, 60 - whole seconds elapsed): "00:00" from 60 s on, "01:00" in the first second |
| Menu.MenuGauge | game_menu.py:97-100 | the single-window gauge equals the play screen's gauge formula anchored at the session start, and lies in (0, 100] |
| Menu.MenuGaugeIsAnchoredAtStart | game_menu.py:97-100 | the single-window gauge is the session gauge reset only at the start: in (0, 100] and periodic with a 5 s period |
| Menu.Fit | game_menu.py:108-115 | the box never exceeds the container; it takes the full width exactly when the 16:9 height of the full width, rounded down, fits, and the full height otherwise; its sides are in 16:9 proportion up to rounding down |
| Menu.FitIsLargest | game_menu.py:107-115 | no exact 16:9 box that fits the container is wider or taller than Fit's box |
| Menu.ResizeTarget | game_menu.py:117-119 | the frame is resized, to the fitted box, exactly when both of its sides are positive |

## Findings

| source | as written | input that shows it | evidently intended | confidence | as-written member | corrected member |
|---|---|---|---|---|---|---|
| main_app.py:46-53 | the current screen is the first frame, in registration order, for which `winfo_ismapped()` is true | a session is running on the play screen and the player presses "Main Menu". All three frames are gridded into the same cell and `tkraise` only restacks them, so all three report mapped and the start screen is found first. `stop_game_loop` is not called, and the session keeps running (and can later jump to the game-over screen) behind the menu | stop the session whenever the play screen is the raised one | medium: not executed; rests on Tk reporting every frame in the shared grid cell as mapped | Navigation.RaiseAsWritten | Navigation.Raise |

The rest of the model (`ShowFrame`, `ShowGameOver`, `AppTick`) uses `Raise`.

## Left out

- Widgets, styles, grid layout, the `after(15, ...)` re-scheduling and `on_resize`: user-interface and event-loop plumbing. Each `update_game` call is one `Tick`.
- The `update_game` call at the end of `start_game_loop` is the host's first `Tick`; `Start` itself does not tick.
- `update_game` reads the clock up to three times per call (match, countdown, gauge). The model uses one `now` per tick. The constructor (screens/game_play_screen.py:36, :40) and `start_game_loop` (:83, :86) each read the clock twice, once for the start time and once for the gauge time. `Create` and `Start` stamp both with the same `now`, so the microseconds between the two reads are not modelled.
- Camera I/O: opening, reading, resizing and colour conversion of frames, and releasing the camera in `stop_game_loop`. Whether the camera opens is a boolean, and a failed read is `None`.
- The gesture recognizer: MediaPipe and Keras inference, supplied as `(label, confidence)`. The debug label that shows it is left out too.
- The offline scripts `collect_hand_landmarks.py` and `data_Preprocessing.py`, the recognizer sources, and the experimental `appdev/StartScreen.py`: none of them is part of this model.
- The button wiring of `screens/game_start_screen.py` and `screens/game_over_screen.py`, the Quit button and `exit_fullscreen`. The debug button passes `debug=True` to `show_frame`, which takes no such argument. A debug session is therefore modelled only through `PlaySession.Start`.
- `show_frame` with an unregistered name first runs its current-screen check (main_app.py:46-53). As written, that check stops the session only when the first mapped frame is the play screen (see Findings). Then the frame lookup raises KeyError (main_app.py:56). Every caller passes a registered name, so `ShowFrame` takes a `Screen`, and `ScreenNamed` models only the lookup.
- A second `update_game` chain, started when the start button is pressed while a hidden session is still running (the situation in Findings), is event-loop behaviour and is not modelled.
- The 0.8 scaling of the container in the play screen's resize is float arithmetic. `Menu.Fit` covers the same integer fit.
- Float details. `int(w / 16 * 9)` and `int(h / 9 * 16)` are taken as the exact floors of 9w/16 and 16h/9, which holds for any realistic window size. Float rounding of the 0.8 threshold and of time stamps is not modelled.
- Poses.LoadPoses: only a missing file is modelled. The source catches only FileNotFoundError. Any other error on the list file escapes the constructor, and the application does not start. Such errors include a permission error, a directory in the file's place, and undecodable text met while reading. `Option` has no case for them. The warnings printed for a missing or empty file, and for a camera that does not open, are console output only.
- Splitting the pose file into lines: the model takes the lines as the file yields them.
- `game_menu.py`'s camera setup and `on_closing` (resource release) and its result label: I/O and display only.
- The unused `numerical_timer_value` and the initial `gauge_timer_percent` attributes.
