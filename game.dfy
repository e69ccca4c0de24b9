/** The scene callbacks of src/game.js that drive the game state: `create`
    (a new game), `update` (the win check), and the handlers for the ball
    leaving through the bottom edge, the one-second relaunch after a lost life
    and the pointer moving the paddle. Each event is a method of its own; the
    timeout `loseLife` schedules is counted in `Scene.pendingRelaunches` and
    fires as `Relaunch`. */
module Game {
  import opened Prelude
  import opened Constants
  import opened SceneObjects
  import opened State
  import opened BrickLayout
  import opened Bricks
  import Ui
  import Settings

  // ---------------------------------------------------------------------------
  // transitions of the session

  /** `Phaser.Math.Clamp(v, lo, hi)`, that is `Math.max(lo, Math.min(hi, v))`. */
  function Clamp(v: real, lo: real, hi: real): real
  {
    MaxReal(lo, MinReal(hi, v))
  }

  /** The `pointermove` handler: while the game runs the paddle follows the
      pointer, clamped so that it stays inside the window; a missing paddle
      throws and changes nothing. */
  function PointerMoved(s: Session, vp: Viewport, pointerX: real): Session
  {
    if s.paused || s.paddle.None? then s
    else
      var p := s.paddle.value;
      s.(paddle := Some(p.(x := Clamp(pointerX, p.width / 2.0, vp.innerWidth as real - p.width / 2.0))))
  }

  /** Where `loseLife` puts the ball back: the middle, 80 pixels above the bottom. */
  function ServePosition(b: Ball, vp: Viewport): Ball
  {
    b.(x := vp.innerWidth as real / 2.0, y := (vp.innerHeight - 80) as real)
  }

  /** The game state after `loseLife`: one life less; with lives left the ball
      waits at the serving position (a destroyed ball has no body to stop and
      throws); without, the ball is destroyed. */
  function LoseLife(s: Session, vp: Viewport): Session
  {
    var t := s.DecrementLives();
    if t.ball.None? then t
    else if t.lives > 0 then
      var b := ServePosition(t.ball.value, vp);
      t.(ball := Some(if b.active then b.(vx := 0.0, vy := 0.0) else b))
    else t.(ball := Some(t.ball.value.(active := false)))
  }

  /** Whether `loseLife` schedules the relaunch: lives are left and the ball's
      velocity could be set. */
  predicate SchedulesRelaunch(s: Session)
  {
    s.lives - 1 > 0 && s.ball.Some? && s.ball.value.active
  }

  /** The `worldbounds` handler: only the ball leaving through the bottom edge
      costs a life. */
  function WorldBounds(s: Session, vp: Viewport, down: bool, bodyIsBall: bool): Session
  {
    if down && bodyIsBall then LoseLife(s, vp) else s
  }

  /** The relaunch timeout: a ball that is still there (and still has a body)
      gets the initial velocity scaled by the speed setting, provided lives are
      left. */
  function Relaunched(s: Session, ballSpeed: real): Session
  {
    if s.ball.Some? && s.lives > 0 && s.ball.value.active
    then s.(ball := Some(s.ball.value.(vx := BALL_INITIAL_VELOCITY_X as real * ballSpeed,
                                      vy := BALL_INITIAL_VELOCITY_Y as real * ballSpeed)))
    else s
  }

  /** The win condition `update` tests on every frame. */
  predicate WinDue(s: Session)
  {
    s.bricksCreated && s.bricksGroup.Some? && CountActive(s.bricksGroup.value) == 0 && s.lives > 0
    && s.winText.None?
  }

  /** `update`: when the win is due the win message appears, the ball stops
      (a missing or destroyed ball throws) and the game pauses. A missing group
      throws before anything changes. */
  function Update(s: Session): Session
  {
    if !WinDue(s) then s
    else
      var t := s.(winText := Some(Ui.NewText(Ui.WIN_MESSAGE, TEXT_LIGHT_COLOR)));
      if t.ball.None? || !t.ball.value.active then t
      else t.(ball := Some(t.ball.value.(vx := 0.0, vy := 0.0))).SetPaused(true)
  }

  /** The paddle `createPaddle` adds, `width` pixels wide. */
  function NewPaddle(vp: Viewport, width: real): Paddle
  {
    Paddle(vp.innerWidth as real / 2.0, (vp.innerHeight - 55) as real, width)
  }

  /** The ball `createBall` adds, at rest above the paddle. */
  function NewBall(vp: Viewport): Ball
  {
    Ball(vp.innerWidth as real / 2.0, (vp.innerHeight - 80) as real, 0.0, 0.0, true)
  }

  /** The game state after the synchronous part of `create`: the theme is
      applied, a stale win text is destroyed and cleared, score, lives and
      `bricksCreated` are reset, an empty group, a paddle, a ball, the lives icons
      and the score text are made. */
  function Created(s: Session, vp: Viewport, colors: Settings.ThemeColors, paddleWidth: real): Session
  {
    var t := Settings.Themed(s, colors);
    t.(winText := None, score := INITIAL_SCORE, lives := INITIAL_LIVES, bricksCreated := false,
       bricksGroup := Some([]), paddle := Some(NewPaddle(vp, paddleWidth)), ball := Some(NewBall(vp)),
       livesBalls := Ui.LivesIcons(INITIAL_LIVES, vp.innerHeight),
       scoreText := Some(Ui.NewText(Ui.ScoreLabel(INITIAL_SCORE), TEXT_COLOR)))
  }

  // ---------------------------------------------------------------------------
  // the handlers

  /** `create`. `paddleWidth` is the width of the paddle texture, drawn from
      the paddle-width setting; the asynchronous continuation is `BricksLoaded`. */
  method Create(gs: GameState, scene: Scene, settings: Settings.GameSettings, vp: Viewport, paddleWidth: real)
    modifies gs`scoreText, gs`countdownText, gs`winText, gs`score, gs`lives, gs`bricksCreated, gs`bricksGroup,
             gs`paddle, gs`ball, gs`livesBalls, scene`background
    ensures gs.Snapshot() == Created(old(gs.Snapshot()), vp, Settings.GetThemeColors(Some(settings.theme)), paddleWidth)
    ensures scene.background == Settings.GetThemeColors(Some(settings.theme)).background
  {
    Settings.ApplyThemeToScene(gs, scene, true, Some(settings.theme));
    NewRound(gs, vp, paddleWidth);
    Ui.CreateLivesDisplay(gs, vp);
    Ui.CreateScoreText(gs);
  }

  /** The resets and the new objects of `create`, up to the display. */
  method NewRound(gs: GameState, vp: Viewport, paddleWidth: real)
    modifies gs`winText, gs`score, gs`lives, gs`bricksCreated, gs`bricksGroup, gs`paddle, gs`ball
    ensures gs.Snapshot() == old(gs.Snapshot()).(winText := None, score := INITIAL_SCORE, lives := INITIAL_LIVES,
              bricksCreated := false, bricksGroup := Some([]), paddle := Some(NewPaddle(vp, paddleWidth)),
              ball := Some(NewBall(vp)))
  {
    ResetRound(gs);
    CreateRoundObjects(gs, vp, paddleWidth);
  }

  /** A stale win text is cleared; score, lives and `bricksCreated` start over. */
  method ResetRound(gs: GameState)
    modifies gs`winText, gs`score, gs`lives, gs`bricksCreated
    ensures gs.Snapshot() == old(gs.Snapshot()).(winText := None, score := INITIAL_SCORE, lives := INITIAL_LIVES,
              bricksCreated := false)
  {
    if gs.winText.Some? {
      gs.winText := None;
    }
    gs.score := INITIAL_SCORE;
    gs.lives := INITIAL_LIVES;
    gs.bricksCreated := false;
  }

  /** The empty brick group, the paddle and the ball of a new round. */
  method CreateRoundObjects(gs: GameState, vp: Viewport, paddleWidth: real)
    modifies gs`bricksGroup, gs`paddle, gs`ball
    ensures gs.Snapshot() == old(gs.Snapshot()).(bricksGroup := Some([]), paddle := Some(NewPaddle(vp, paddleWidth)),
              ball := Some(NewBall(vp)))
  {
    gs.bricksGroup := Some([]);
    gs.paddle := Some(NewPaddle(vp, paddleWidth));
    gs.ball := Some(NewBall(vp));
  }

  /** The continuation of `create` once the résumé is loaded: the bricks are
      made, then the countdown text appears and the countdown starts. */
  method BricksLoaded(gs: GameState, elements: seq<string>, vp: Viewport)
    requires gs.bricksGroup.Some?
    modifies gs
    ensures gs.Snapshot() == Ui.StartCountdown(AfterResume(old(gs.Snapshot()), elements, vp).(
              countdownText := Some(Ui.NewText(JsNumbers.IntToString(old(gs.currentCountdown)), TEXT_LIGHT_COLOR))))
  {
    CreateBricksFromResume(gs, elements, vp);
    Ui.CreateCountdownText(gs);
    Ui.StartCountdownTimer(gs);
  }

  /** `loseLife`. */
  method LoseLifeHandler(gs: GameState, scene: Scene, vp: Viewport)
    modifies gs`lives, gs`livesBalls, gs`ball, scene`gameOverTexts, scene`pendingRelaunches
    ensures gs.Snapshot() == LoseLife(old(gs.Snapshot()), vp)
    ensures scene.pendingRelaunches == old(scene.pendingRelaunches) + if SchedulesRelaunch(old(gs.Snapshot())) then 1 else 0
    ensures scene.gameOverTexts == old(scene.gameOverTexts) + if old(gs.lives) - 1 > 0 then 0 else 1
  {
    gs.DecrementLives();
    if gs.lives > 0 {
      if gs.ball.None? {
        return;
      }
      gs.ball := Some(ServePosition(gs.ball.value, vp));
      if !gs.ball.value.active {
        return;
      }
      gs.ball := Some(gs.ball.value.(vx := 0.0, vy := 0.0));
      scene.pendingRelaunches := scene.pendingRelaunches + 1;
    } else {
      Ui.ShowGameOver(scene);
      if gs.ball.None? {
        return;
      }
      gs.ball := Some(gs.ball.value.(active := false));
    }
  }

  /** The `worldbounds` handler. */
  method WorldBoundsHandler(gs: GameState, scene: Scene, vp: Viewport, down: bool, bodyIsBall: bool)
    modifies gs`lives, gs`livesBalls, gs`ball, scene`gameOverTexts, scene`pendingRelaunches
    ensures gs.Snapshot() == WorldBounds(old(gs.Snapshot()), vp, down, bodyIsBall)
    ensures !(down && bodyIsBall) ==> scene.pendingRelaunches == old(scene.pendingRelaunches)
    ensures !(down && bodyIsBall) ==> scene.gameOverTexts == old(scene.gameOverTexts)
  {
    if down && bodyIsBall {
      LoseLifeHandler(gs, scene, vp);
    }
  }

  /** The relaunch timeout firing. */
  method Relaunch(gs: GameState, scene: Scene, ballSpeed: real)
    requires scene.pendingRelaunches > 0
    modifies gs`ball, scene`pendingRelaunches
    ensures gs.Snapshot() == Relaunched(old(gs.Snapshot()), ballSpeed)
    ensures scene.pendingRelaunches == old(scene.pendingRelaunches) - 1
  {
    scene.pendingRelaunches := scene.pendingRelaunches - 1;
    if gs.ball.Some? && gs.lives > 0 && gs.ball.value.active {
      gs.ball := Some(gs.ball.value.(vx := BALL_INITIAL_VELOCITY_X as real * ballSpeed,
                                     vy := BALL_INITIAL_VELOCITY_Y as real * ballSpeed));
    }
  }

  /** The `pointermove` handler. */
  method PointerMove(gs: GameState, vp: Viewport, pointerX: real)
    modifies gs`paddle
    ensures gs.Snapshot() == PointerMoved(old(gs.Snapshot()), vp, pointerX)
  {
    if !gs.paused && gs.paddle.Some? {
      var paddleWidth := gs.paddle.value.width;
      gs.paddle := Some(gs.paddle.value.(x := Clamp(pointerX, paddleWidth / 2.0, vp.innerWidth as real - paddleWidth / 2.0)));
    }
  }

  /** `update`. */
  method UpdateHandler(gs: GameState)
    modifies gs`winText, gs`ball, gs`paused
    ensures gs.Snapshot() == Update(old(gs.Snapshot()))
  {
    if gs.bricksCreated && gs.bricksGroup.Some? && CountActive(gs.bricksGroup.value) == 0 && gs.lives > 0
       && gs.winText.None? {
      Ui.ShowWinMessage(gs);
      if gs.ball.None? || !gs.ball.value.active {
        return;
      }
      gs.ball := Some(gs.ball.value.(vx := 0.0, vy := 0.0));
      gs.SetPaused(true);
    }
  }

  // ---------------------------------------------------------------------------
  // properties

  /** The clamp lands in `[lo, hi]` when that interval is not empty, keeps a
      value already inside it, and maps values outside to the nearer end. */
  lemma ClampBounds(v: real, lo: real, hi: real)
    ensures lo <= hi ==> lo <= Clamp(v, lo, hi) <= hi
    ensures lo <= v <= hi ==> Clamp(v, lo, hi) == v
    ensures v <= lo ==> Clamp(v, lo, hi) == lo
    ensures lo <= hi <= v ==> Clamp(v, lo, hi) == hi
  {
  }

  /** While the game runs, a paddle no wider than the window stays entirely
      inside it whatever the pointer does; while paused, nothing moves. */
  lemma PaddleInsideWindow(s: Session, vp: Viewport, pointerX: real)
    requires s.paddle.Some? && 0.0 <= s.paddle.value.width <= vp.innerWidth as real
    ensures !s.paused ==> 0.0 <= PointerMoved(s, vp, pointerX).paddle.value.x - s.paddle.value.width / 2.0
    ensures !s.paused ==> PointerMoved(s, vp, pointerX).paddle.value.x + s.paddle.value.width / 2.0 <= vp.innerWidth as real
    ensures PointerMoved(s, vp, pointerX).paddle.value.width == s.paddle.value.width
    ensures PointerMoved(s, vp, pointerX).(paddle := s.paddle) == s
    ensures s.paused ==> PointerMoved(s, vp, pointerX) == s
  {
    var p := s.paddle.value;
    ClampBounds(pointerX, p.width / 2.0, vp.innerWidth as real - p.width / 2.0);
  }

  /** Only the ball leaving through the bottom edge changes anything. */
  lemma WorldBoundsFilter(s: Session, vp: Viewport, down: bool, bodyIsBall: bool)
    ensures !down ==> WorldBounds(s, vp, down, bodyIsBall) == s
    ensures !bodyIsBall ==> WorldBounds(s, vp, down, bodyIsBall) == s
    ensures down && bodyIsBall ==> WorldBounds(s, vp, down, bodyIsBall).lives == s.lives - 1
  {
  }

  /** With lives left after the loss, the live ball waits at the serving
      position with no velocity; the lives icons follow the lives. */
  lemma LoseLifeServes(s: Session, vp: Viewport)
    requires s.lives - 1 > 0 && s.ball.Some? && s.ball.value.active
    ensures LoseLife(s, vp).lives == s.lives - 1
    ensures LoseLife(s, vp).ball == Some(s.ball.value.(x := vp.innerWidth as real / 2.0,
                                                      y := (vp.innerHeight - 80) as real, vx := 0.0, vy := 0.0))
    ensures LoseLife(s, vp).(ball := s.ball) == s.DecrementLives()
  {
  }

  /** Losing the last life destroys the ball (and shows "Game Over", see
      `LoseLifeHandler`); no relaunch is scheduled. */
  lemma LoseLastLife(s: Session, vp: Viewport)
    requires s.lives <= 1 && s.ball.Some?
    ensures LoseLife(s, vp).ball == Some(s.ball.value.(active := false))
    ensures LoseLife(s, vp).lives <= 0
    ensures !SchedulesRelaunch(s)
    ensures LoseLife(s, vp).(ball := s.ball) == s.DecrementLives()
  {
  }

  /** The relaunch gives the initial velocity scaled by the speed setting,
      and does nothing once the lives are gone. */
  lemma RelaunchEffect(s: Session, ballSpeed: real)
    ensures s.lives <= 0 || s.ball.None? ==> Relaunched(s, ballSpeed) == s
    ensures s.lives > 0 && s.ball.Some? && s.ball.value.active ==>
              && Relaunched(s, ballSpeed).ball.value.vx == 200.0 * ballSpeed
              && Relaunched(s, ballSpeed).ball.value.vy == -200.0 * ballSpeed
              && Relaunched(s, ballSpeed).ball.value.(vx := s.ball.value.vx, vy := s.ball.value.vy) == s.ball.value
    ensures Relaunched(s, ballSpeed).(ball := s.ball) == s
  {
  }

  /** A ball that has just been served is relaunched by its timeout: a lost
      life followed by the timeout puts the ball back into play. */
  lemma ServeThenRelaunch(s: Session, vp: Viewport, ballSpeed: real)
    requires SchedulesRelaunch(s)
    ensures Relaunched(LoseLife(s, vp), ballSpeed).ball
         == Some(ServePosition(s.ball.value, vp).(vx := 200.0 * ballSpeed, vy := -200.0 * ballSpeed))
  {
  }

  /** The win transition fires exactly when bricks were created, none is
      active, lives are left and no win text is shown; it shows the message,
      stops a live ball and pauses. It never sets `gameEnded`. */
  lemma WinCheck(s: Session)
    ensures Update(s) != s <==> WinDue(s)
    ensures WinDue(s) ==> Update(s).winText == Some(Ui.NewText(Ui.WIN_MESSAGE, TEXT_LIGHT_COLOR))
    ensures WinDue(s) && s.ball.Some? && s.ball.value.active ==>
              && Update(s).paused
              && Update(s).ball == Some(s.ball.value.(vx := 0.0, vy := 0.0))
    ensures Update(s).gameEnded == s.gameEnded
    ensures Update(s).(winText := s.winText, ball := s.ball, paused := s.paused) == s
  {
  }

  /** Because the win text stays, repeated frames fire the win at most once. */
  lemma WinAtMostOnce(s: Session)
    ensures Update(Update(s)) == Update(s)
    ensures !WinDue(Update(s))
  {
  }

  /** `create` starts a new game: score 0, 5 lives and as many icons, no bricks
      yet, an empty group, no win text, a resting ball; the high score, the
      pause flag and the countdown are kept. */
  lemma CreateResets(s: Session, vp: Viewport, colors: Settings.ThemeColors, paddleWidth: real)
    ensures var r := Created(s, vp, colors, paddleWidth);
      && r.score == 0 && r.lives == 5 && !r.bricksCreated && r.winText.None?
      && r.bricksGroup == Some([]) && |r.livesBalls| == 5
      && r.ball == Some(NewBall(vp)) && r.ball.value.vx == 0.0 && r.ball.value.vy == 0.0
      && r.highScore == s.highScore && r.paused == s.paused && r.totalRows == s.totalRows
      && r.countdownInterval == s.countdownInterval && r.currentCountdown == s.currentCountdown
      && !WinDue(r)
  {
    Ui.LivesIconsLayout(INITIAL_LIVES, vp.innerHeight);
  }
}
