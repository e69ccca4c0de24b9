/** The heads-up display and the pause/countdown flow of src/ui.js: the lives
    icons, the score, countdown, "Game Over" and win texts, the one-second
    countdown interval that launches the ball, and `togglePause`.

    The interval is `gameState.countdownInterval`; the counter its callback
    captured is kept in it (`Countdown(counter)`), and one firing of the
    interval is the method `CountdownTick`. A callback that dereferences a
    missing object throws; the state it had already changed stays changed and a
    still-pending interval goes on firing. */
module Ui {
  import opened Prelude
  import opened Constants
  import opened JsNumbers
  import opened SceneObjects
  import opened State
  import opened BrickLayout

  const WIN_MESSAGE: string := "YOU BROKE IT! YOU WIN!"

  /** The icons `createLivesDisplay` draws for `lives` lives in a window
      `height` pixels tall, built one icon at a time as its loop does. */
  function LivesIcons(lives: int, height: int): seq<LifeIcon>
    decreases lives
  {
    if lives <= 0 then [] else LivesIcons(lives - 1, height) + [LifeIcon(20 + 30 * (lives - 1), height - 20)]
  }

  /** A fresh text object showing `content` in colour `fill`. */
  function NewText(content: string, fill: string): TextObj
  {
    TextObj(content, fill, true)
  }

  /** The score text `createScoreText` adds. */
  function ScoreLabel(score: int): string
  {
    "Score: " + IntToString(score)
  }

  // ---------------------------------------------------------------------------
  // transitions of the session

  /** One firing of the countdown interval: the captured counter goes down and
      is published in `currentCountdown`; above zero the text shows it, at zero
      the text is destroyed, the ball is launched, the game unpaused, the
      interval cleared and the counter reset. */
  function Tick(s: Session): Session
    requires s.countdownInterval.Some?
  {
    var c := s.countdownInterval.value.counter - 1;
    var t := s.(countdownInterval := Some(Countdown(c)), currentCountdown := c);
    if t.countdownText.None? then t
    else if c > 0 then t.(countdownText := Some(t.countdownText.value.(content := IntToString(c))))
    else Expire(t)
  }

  /** The countdown reaching zero: the text is destroyed and, when there is an
      active ball, it is launched, the game unpaused, the interval cleared and
      the counter reset. */
  function Expire(t: Session): Session
    requires t.countdownText.Some?
  {
    var u := t.(countdownText := Some(t.countdownText.value.(active := false)));
    if u.ball.None? || !u.ball.value.active then u
    else u.(ball := Some(Launched(u.ball.value)), paused := false, countdownInterval := None,
            currentCountdown := COUNTDOWN_START)
  }

  /** The ball after `setVelocity(BALL_INITIAL_VELOCITY.x, BALL_INITIAL_VELOCITY.y)`. */
  function Launched(b: Ball): Ball
  {
    b.(vx := BALL_INITIAL_VELOCITY_X as real, vy := BALL_INITIAL_VELOCITY_Y as real)
  }

  /** `n` firings of the interval; a cleared interval fires no more. */
  function Ticks(s: Session, n: nat): Session
    decreases n
  {
    if n == 0 || s.countdownInterval.None? then s else Ticks(Tick(s), n - 1)
  }

  /** `startCountdown`: a new interval counting down from `currentCountdown`. */
  function StartCountdown(s: Session): Session
  {
    s.(countdownInterval := Some(Countdown(s.currentCountdown)))
  }

  /** The game state after `togglePause`: the flag flips; resuming a countdown
      that was interrupted clears `wasInCountdown`, recreates the countdown text
      when it is missing or destroyed, and starts the countdown again. */
  function TogglePause(s: Session): Session
  {
    var t := s.TogglePause();
    if !t.paused && t.wasInCountdown then
      var u := t.(wasInCountdown := false);
      var v := if u.countdownText.None? || !u.countdownText.value.active
               then u.(countdownText := Some(NewText(IntToString(u.currentCountdown), TEXT_LIGHT_COLOR))) else u;
      StartCountdown(v)
    else t
  }

  /** The label `togglePause` gives the pause button. */
  function PauseLabel(paused: bool): string
  {
    if paused then "Play" else "Pause"
  }

  /** A pending interval counts from the value published in `currentCountdown`,
      so that an interrupted countdown resumes where it stopped. */
  predicate Synced(s: Session)
  {
    s.countdownInterval.Some? ==> s.countdownInterval.value.counter == s.currentCountdown
  }

  // ---------------------------------------------------------------------------
  // the handlers

  /** `createLivesDisplay`. */
  method CreateLivesDisplay(gs: GameState, vp: Viewport)
    modifies gs`livesBalls
    ensures gs.Snapshot() == old(gs.Snapshot()).(livesBalls := LivesIcons(gs.lives, vp.innerHeight))
  {
    gs.livesBalls := [];
    var i := 0;
    while i < gs.lives
      invariant 0 <= i && (gs.lives >= 0 ==> i <= gs.lives) && (gs.lives < 0 ==> i == 0)
      invariant gs.livesBalls == LivesIcons(i, vp.innerHeight)
      invariant gs.Snapshot() == old(gs.Snapshot()).(livesBalls := gs.livesBalls)
    {
      gs.livesBalls := gs.livesBalls + [LifeIcon(20 + i * 30, vp.innerHeight - 20)];
      i := i + 1;
    }
  }

  /** `createScoreText`. */
  method CreateScoreText(gs: GameState)
    modifies gs`scoreText
    ensures gs.Snapshot() == old(gs.Snapshot()).(scoreText := Some(NewText(ScoreLabel(gs.score), TEXT_COLOR)))
  {
    gs.scoreText := Some(NewText(ScoreLabel(gs.score), TEXT_COLOR));
  }

  /** `createCountdownText`. */
  method CreateCountdownText(gs: GameState)
    modifies gs`countdownText
    ensures gs.Snapshot() == old(gs.Snapshot()).(countdownText := Some(NewText(IntToString(gs.currentCountdown), TEXT_LIGHT_COLOR)))
  {
    gs.countdownText := Some(NewText(IntToString(gs.currentCountdown), TEXT_LIGHT_COLOR));
  }

  /** `showGameOver`: one more "Game Over" text in the scene. */
  method ShowGameOver(scene: Scene)
    modifies scene`gameOverTexts
    ensures scene.gameOverTexts == old(scene.gameOverTexts) + 1
  {
    scene.gameOverTexts := scene.gameOverTexts + 1;
  }

  /** `showWinMessage`. */
  method ShowWinMessage(gs: GameState)
    modifies gs`winText
    ensures gs.Snapshot() == old(gs.Snapshot()).(winText := Some(NewText(WIN_MESSAGE, TEXT_LIGHT_COLOR)))
  {
    gs.winText := Some(NewText(WIN_MESSAGE, TEXT_LIGHT_COLOR));
  }

  /** `startCountdown`: the interval is created; its firings are `CountdownTick`. */
  method StartCountdownTimer(gs: GameState)
    modifies gs`countdownInterval
    ensures gs.Snapshot() == StartCountdown(old(gs.Snapshot()))
  {
    gs.countdownInterval := Some(Countdown(gs.currentCountdown));
  }

  /** One firing of the countdown interval. */
  method CountdownTick(gs: GameState)
    requires gs.countdownInterval.Some?
    modifies gs`countdownInterval, gs`currentCountdown, gs`countdownText, gs`ball, gs`paused
    ensures gs.Snapshot() == Tick(old(gs.Snapshot()))
  {
    var countdown := gs.countdownInterval.value.counter;
    countdown := countdown - 1;
    gs.countdownInterval := Some(Countdown(countdown));
    gs.currentCountdown := countdown;
    if gs.countdownText.None? {
      return;
    }
    if countdown > 0 {
      gs.countdownText := Some(gs.countdownText.value.(content := IntToString(countdown)));
    } else {
      ExpireCountdown(gs);
    }
  }

  /** The `countdown <= 0` branch of the interval callback. */
  method ExpireCountdown(gs: GameState)
    requires gs.countdownText.Some?
    modifies gs`countdownInterval, gs`currentCountdown, gs`countdownText, gs`ball, gs`paused
    ensures gs.Snapshot() == Expire(old(gs.Snapshot()))
  {
    gs.countdownText := Some(gs.countdownText.value.(active := false));
    if gs.ball.None? || !gs.ball.value.active {
      return;
    }
    LaunchBall(gs);
  }

  /** The ball gets its initial velocity, the game is unpaused, the interval
      is cleared and the counter reset. */
  method LaunchBall(gs: GameState)
    requires gs.ball.Some?
    modifies gs`countdownInterval, gs`currentCountdown, gs`ball, gs`paused
    ensures gs.Snapshot() == old(gs.Snapshot()).(ball := Some(Launched(old(gs.ball.value))), paused := false,
              countdownInterval := None, currentCountdown := COUNTDOWN_START)
  {
    gs.ball := Some(gs.ball.value.(vx := BALL_INITIAL_VELOCITY_X as real, vy := BALL_INITIAL_VELOCITY_Y as real));
    gs.SetPaused(false);
    gs.countdownInterval := None;
    gs.currentCountdown := COUNTDOWN_START;
  }

  /** `togglePause`: the game state as `TogglePause`, the physics world paused
      with it, and the pause button (when the page has one) labelled. */
  method TogglePauseHandler(gs: GameState, scene: Scene)
    modifies gs`paused, gs`wasInCountdown, gs`countdownText, gs`countdownInterval,
             scene`physicsPaused, scene`pauseButton
    ensures gs.Snapshot() == TogglePause(old(gs.Snapshot()))
    ensures scene.physicsPaused == gs.paused
    ensures scene.pauseButton == if old(scene.pauseButton).Some? then Some(PauseLabel(gs.paused)) else None
  {
    var paused := gs.TogglePause();
    scene.physicsPaused := paused;
    if scene.pauseButton.Some? {
      scene.pauseButton := Some(PauseLabel(paused));
    }
    if !paused && gs.wasInCountdown {
      gs.wasInCountdown := false;
      if gs.countdownText.None? || !gs.countdownText.value.active {
        CreateCountdownText(gs);
      }
      StartCountdownTimer(gs);
    }
  }

  // ---------------------------------------------------------------------------
  // properties

  /** `createLivesDisplay` draws exactly `lives` icons (none for no lives),
      the i-th at x = 20 + 30 i, all on the line 20 pixels above the bottom. */
  lemma {:induction false} LivesIconsLayout(lives: int, height: int)
    ensures |LivesIcons(lives, height)| == if lives < 0 then 0 else lives
    ensures forall i :: 0 <= i < |LivesIcons(lives, height)| ==>
              LivesIcons(lives, height)[i] == LifeIcon(20 + 30 * i, height - 20)
    decreases lives
  {
    if lives > 0 {
      LivesIconsLayout(lives - 1, height);
    }
  }

  /** Losing a life keeps the icons in step with the lives: when the display
      showed `lives` icons, it shows `lives - 1` after `decrementLives`. */
  lemma IconsFollowLives(s: Session, height: int)
    requires s.livesBalls == LivesIcons(s.lives, height)
    ensures s.DecrementLives().livesBalls == LivesIcons(s.lives - 1, height)
  {
    if s.lives > 0 {
      assert LivesIcons(s.lives, height)[..s.lives - 1] == LivesIcons(s.lives - 1, height) by {
        LivesIconsLayout(s.lives - 1, height);
      }
    }
  }

  /** Every transition of this module keeps a pending interval in step with
      `currentCountdown`. */
  lemma TransitionsKeepSynced(s: Session)
    ensures Synced(StartCountdown(s))
    ensures Synced(s) ==> Synced(TogglePause(s))
    ensures s.countdownInterval.Some? ==> Synced(Tick(s))
  {
  }

  /** While the counter is above zero a firing changes only the counter, the
      published `currentCountdown` and the number the countdown text shows. */
  lemma TickCounts(s: Session)
    requires Synced(s) && s.countdownInterval.Some? && s.currentCountdown > 1
    requires s.countdownText.Some?
    ensures Tick(s) == s.(countdownInterval := Some(Countdown(s.currentCountdown - 1)),
                          currentCountdown := s.currentCountdown - 1,
                          countdownText := Some(s.countdownText.value.(content := IntToString(s.currentCountdown - 1))))
  {
  }

  /** Started from `c >= 1` with the text and a live ball present, the
      countdown has not launched after `k < c` firings: the interval is still
      pending, the counter reads `c - k`, the text shows it and nothing else
      has changed. */
  lemma {:induction false} CountdownRunning(s: Session, k: nat)
    requires Synced(s) && s.countdownInterval.Some? && s.currentCountdown >= 1
    requires s.countdownText.Some?
    requires 0 < k < s.currentCountdown
    decreases k
    ensures Ticks(s, k) == s.(countdownInterval := Some(Countdown(s.currentCountdown - k)),
                              currentCountdown := s.currentCountdown - k,
                              countdownText := Some(s.countdownText.value.(content := IntToString(s.currentCountdown - k))))
  {
    var t := Tick(s);
    TickCounts(s);
    if k > 1 {
      CountdownRunning(t, k - 1);
      assert t.countdownText.value.(content := IntToString(t.currentCountdown - (k - 1)))
          == s.countdownText.value.(content := IntToString(s.currentCountdown - k));
    }
  }

  /** The `c`-th firing launches the ball: afterwards the ball moves at the
      initial velocity, the game is unpaused, the interval is cleared, the counter
      is back at `COUNTDOWN_START` and the countdown text is destroyed. */
  lemma CountdownLaunches(s: Session)
    requires Synced(s) && s.countdownInterval.Some? && s.currentCountdown >= 1
    requires s.countdownText.Some? && s.ball.Some? && s.ball.value.active
    ensures Ticks(s, s.currentCountdown).ball == Some(Launched(s.ball.value))
    ensures !Ticks(s, s.currentCountdown).paused
    ensures Ticks(s, s.currentCountdown).countdownInterval.None?
    ensures Ticks(s, s.currentCountdown).currentCountdown == COUNTDOWN_START
    ensures Ticks(s, s.currentCountdown).countdownText.Some?
    ensures !Ticks(s, s.currentCountdown).countdownText.value.active
    ensures Ticks(s, s.currentCountdown).(ball := s.ball, paused := s.paused, countdownInterval := s.countdownInterval,
                                          currentCountdown := s.currentCountdown, countdownText := s.countdownText) == s
  {
    var c := s.currentCountdown;
    var before := s;
    if c > 1 {
      CountdownRunning(s, c - 1);
      before := Ticks(s, c - 1);
      TicksSplit(s, c - 1);
    }
    assert before.countdownInterval == Some(Countdown(1));
    assert Ticks(before, 1) == Tick(before);
  }

  /** `n + 1` firings are `n` firings and one more, while the interval is pending. */
  lemma {:induction false} TicksSplit(s: Session, n: nat)
    requires Ticks(s, n).countdownInterval.Some?
    ensures Ticks(s, n + 1) == Ticks(Ticks(s, n), 1)
    decreases n
  {
    if n > 0 && s.countdownInterval.Some? {
      TicksSplit(Tick(s), n - 1);
    }
  }

  /** `togglePause` restarts the countdown exactly when it resumes the game
      (the flag was set) with `wasInCountdown` set; it then clears that flag and
      counts on from `currentCountdown` with a live countdown text. Otherwise it
      only flips the flag. */
  lemma TogglePauseRestarts(s: Session)
    ensures TogglePause(s).paused == !s.paused
    ensures s.paused && s.wasInCountdown ==>
              && !TogglePause(s).wasInCountdown
              && TogglePause(s).countdownInterval == Some(Countdown(s.currentCountdown))
              && TogglePause(s).countdownText.Some? && TogglePause(s).countdownText.value.active
              && TogglePause(s).(countdownText := s.countdownText, countdownInterval := s.countdownInterval,
                                 wasInCountdown := true, paused := true) == s
    ensures !(s.paused && s.wasInCountdown) ==> TogglePause(s) == s.(paused := !s.paused)
  {
  }

  /** A live countdown text is left as it is when the countdown restarts; a
      missing or destroyed one is recreated showing the counter. */
  lemma RestartText(s: Session)
    requires s.paused && s.wasInCountdown
    ensures s.countdownText.Some? && s.countdownText.value.active ==> TogglePause(s).countdownText == s.countdownText
    ensures !(s.countdownText.Some? && s.countdownText.value.active) ==>
              TogglePause(s).countdownText == Some(NewText(IntToString(s.currentCountdown), TEXT_LIGHT_COLOR))
  {
  }
}
