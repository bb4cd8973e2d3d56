/** The application shell: three screens registered by class name, one of them
    raised at a time, and the play session stopped and started as the player moves
    between them. */
module Navigation {
  import opened Base
  import opened PlaySession
  import Matching

  datatype Screen = GameStartScreen | GamePlayScreen | GameOverScreen

  /** The screens in the order the shell registers them. */
  const Registered: seq<Screen> := [GameStartScreen, GamePlayScreen, GameOverScreen]

  /** The key a screen is registered under: its class name. */
  function PageName(s: Screen): (n: string) {
    match s
    case GameStartScreen => "GameStartScreen"
    case GamePlayScreen => "GamePlayScreen"
    case GameOverScreen => "GameOverScreen"
  }

  /** `self.frames[page_name]`; None where Python raises KeyError. */
  function ScreenNamed(name: string): (r: Option<Screen>)
    ensures r.Some? ==> PageName(r.value) == name
    ensures forall s: Screen :: PageName(s) == name ==> r == Some(s)
  {
    if name == "GameStartScreen" then Some(GameStartScreen)
    else if name == "GamePlayScreen" then Some(GamePlayScreen)
    else if name == "GameOverScreen" then Some(GameOverScreen)
    else None
  }

  /** Exactly three screens are registered, each once, and a screen is found again
      under the name it was registered with; no other name finds a screen. */
  lemma RegistryIsExact(s: Screen, name: string)
    ensures |Registered| == 3 && s in Registered
    ensures forall i, j :: 0 <= i < j < |Registered| ==> PageName(Registered[i]) != PageName(Registered[j])
    ensures ScreenNamed(PageName(s)) == Some(s)
    ensures ScreenNamed(name) == Some(s) <==> name == PageName(s)
  {
  }

  /** The shell's state: the raised screen, the score the game-over screen shows,
      and the play screen's session. */
  datatype App = App(shown: Screen, finalScore: int, play: Session)

  /** A session only runs while the play screen is raised. */
  predicate AppValid(a: App) {
    Valid(a.play) && (a.play.running ==> a.shown == GamePlayScreen)
  }

  /** `GameManager.__init__`: every screen is built (the play screen's constructor
      loads the poses) and the start screen is raised. */
  function Launch(file: Option<seq<string>>, now: int, draw: nat): (a: App)
    ensures AppValid(a)
    ensures a.shown == GameStartScreen && a.finalScore == 0 && !a.play.running
  {
    App(GameStartScreen, 0, Create(file, now, draw))
  }

  /** The first half of `show_frame`: stop the session if the play screen is the one
      raised, then raise `page`. */
  function Raise(a: App, page: Screen): (r: App)
    ensures r.shown == page && r.finalScore == a.finalScore
    ensures a.shown == GamePlayScreen ==> r.play == Stop(a.play)
    ensures a.shown != GamePlayScreen ==> r.play == a.play
  {
    var current := if a.shown == GamePlayScreen then a.(play := Stop(a.play)) else a;
    current.(shown := page)
  }

  /** `show_game_over_screen(score)`: the score is stored on the game-over screen,
      then that screen is raised. */
  function ShowGameOver(a: App, score: int): (r: App)
    requires Valid(a.play)
    ensures r.shown == GameOverScreen && r.finalScore == score
    ensures AppValid(a) ==> AppValid(r) && !r.play.running
    ensures r.play.score == a.play.score
  {
    Raise(a.(finalScore := score), GameOverScreen)
  }

  /** `show_frame(page)`: leaves the current screen (stopping the session if it is
      the play screen), raises `page`, and for the play screen starts a session
      with the default `debug=False`. A camera that does not open sends the stale
      score to the game-over screen. */
  function ShowFrame(a: App, page: Screen, cameraOk: bool, now: int, draw: nat): (r: App)
    requires Valid(a.play)
    ensures Valid(r.play)
    ensures AppValid(a) ==> AppValid(r)
    ensures page != GamePlayScreen ==> r.shown == page && r.finalScore == a.finalScore && r.play.score == a.play.score
    ensures page != GamePlayScreen && AppValid(a) ==> !r.play.running
    ensures page == GamePlayScreen && cameraOk ==>
      r.shown == GamePlayScreen && r.play.running && !r.play.debug && r.play.score == 0 && r.play.startTime == now
    ensures page == GamePlayScreen && !cameraOk ==>
      r.shown == GameOverScreen && !r.play.running && r.finalScore == a.play.score
  {
    var raised := Raise(a, page);
    if page != GamePlayScreen then raised
    else
      var started := Start(raised.play, false, cameraOk, now, draw);
      var r := raised.(play := started.session);
      if started.gameOver.Some? then ShowGameOver(r, started.gameOver.value) else r
  }

  /** Play to play: the running session is stopped and a fresh one started. */
  lemma ReplayRestartsTheSession(a: App, now: int, draw: nat)
    requires AppValid(a) && a.shown == GamePlayScreen
    ensures ShowFrame(a, GamePlayScreen, true, now, draw).play == Start(Stop(a.play), false, true, now, draw).session
  {
  }

  /** One `update_game` call driven by the shell; a session that times out hands
      its score to the game-over screen, which is raised. */
  function AppTick(a: App, frame: Option<Matching.Classification>, now: int, draw: nat): (r: App)
    requires Valid(a.play)
    ensures Valid(r.play)
    ensures AppValid(a) ==> AppValid(r)
    ensures r.play.score >= a.play.score
    ensures Tick(a.play, frame, now, draw).gameOver.Some? ==>
      r.shown == GameOverScreen && r.finalScore == r.play.score && !r.play.running
    ensures Tick(a.play, frame, now, draw).gameOver.None? ==> r.shown == a.shown && r.finalScore == a.finalScore
  {
    var step := Tick(a.play, frame, now, draw);
    var r := a.(play := step.session);
    if step.gameOver.Some? then ShowGameOver(r, step.gameOver.value) else r
  }

  /** The first registered screen in `mapped`: how `show_frame` as written finds
      the current screen, by asking each frame in turn whether it is mapped. */
  function FirstMapped(mapped: set<Screen>): (r: Option<Screen>)
    ensures r.Some? <==> mapped != {}
    ensures r.Some? ==> r.value in mapped
    ensures GameStartScreen in mapped ==> r == Some(GameStartScreen)
    ensures GameStartScreen !in mapped && GamePlayScreen in mapped ==> r == Some(GamePlayScreen)
  {
    if GameStartScreen in mapped then Some(GameStartScreen)
    else if GamePlayScreen in mapped then Some(GamePlayScreen)
    else if GameOverScreen in mapped then Some(GameOverScreen)
    else
      assert mapped == {} by {
        forall s | s in mapped ensures s in Registered {
          RegistryIsExact(s, "");
        }
      }
      None
  }

  /** The first half of `show_frame` as written: the session is stopped only when
      the first mapped frame is the play screen. */
  function RaiseAsWritten(a: App, page: Screen, mapped: set<Screen>): (r: App)
    ensures r.shown == page && r.finalScore == a.finalScore
    ensures r.play == if FirstMapped(mapped) == Some(GamePlayScreen) then Stop(a.play) else a.play
  {
    var current := if FirstMapped(mapped) == Some(GamePlayScreen) then a.(play := Stop(a.play)) else a;
    current.(shown := page)
  }

  /** Where only the raised frame counts as mapped, the written code is Raise. */
  lemma RaiseAsWrittenAgreesWhenOnlyShownIsMapped(a: App, page: Screen)
    ensures RaiseAsWritten(a, page, {a.shown}) == Raise(a, page)
  {
  }

  /** Frames stacked in one grid cell all stay mapped, so the written code sees the
      start screen first and leaves a running session running behind another
      screen; Raise stops it. */
  lemma RaiseAsWrittenLeavesSessionRunning(a: App, page: Screen)
    requires AppValid(a) && a.play.running && page != GamePlayScreen
    ensures var written := RaiseAsWritten(a, page, {GameStartScreen, GamePlayScreen, GameOverScreen});
      written.play.running && !AppValid(written)
    ensures AppValid(Raise(a, page)) && !Raise(a, page).play.running
  {
  }
}
