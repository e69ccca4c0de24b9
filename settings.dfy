/** The player settings of src/settings.js: the light/dark theme (kept in
    `localStorage`, mirrored on the page and applied to the scene), the colour
    pickers, the paddle-width slider bound, the speed guard, and the settings
    button, which pauses the game and interrupts a running countdown. */
module Settings {
  import opened Prelude
  import opened JsStrings
  import opened JsNumbers
  import opened Constants
  import opened SceneObjects
  import opened WebStorage
  import opened State
  import opened BrickLayout
  import Ui

  const THEME_STORAGE_KEY: string := "brickBreakerTheme"
  const LIGHT: string := "light"
  const DARK: string := "dark"
  const DEFAULT_THEME: string := LIGHT

  /** What the pause button shows once the settings button has paused the game
      (a "play" icon). */
  const PLAY_ICON: string := "<i class=\"fas fa-play\"></i>"

  // ---------------------------------------------------------------------------
  // themes

  /** `sanitizeTheme(theme)`: 'dark' and 'light' are kept, anything else
      (including `null`) is the default theme. */
  function SanitizeTheme(theme: Option<string>): (r: string)
    ensures r == DARK || r == LIGHT
    ensures r == DARK <==> theme == Some(DARK)
  {
    if theme == Some(DARK) then DARK
    else if theme == Some(LIGHT) then LIGHT
    else DEFAULT_THEME
  }

  /** The colours of one theme. */
  datatype ThemeColors = ThemeColors(theme: string, background: string, hudText: string, hudTextMuted: string)

  const DARK_COLORS: ThemeColors := ThemeColors(DARK, "#111111", "#ffffff", "#a9a9a9")
  const LIGHT_COLORS: ThemeColors := ThemeColors(LIGHT, "#ffffff", "#000000", "#4b5563")

  /** `getThemeColors(theme)`. */
  function GetThemeColors(theme: Option<string>): ThemeColors
  {
    if SanitizeTheme(theme) == DARK then DARK_COLORS else LIGHT_COLORS
  }

  /** `readStoredTheme()`: the sanitised stored value, the default when the
      storage read throws. */
  function ReadStoredTheme(read: Read): (r: string)
    ensures read.Threw? ==> r == DEFAULT_THEME
  {
    if read.Threw? then DEFAULT_THEME else SanitizeTheme(read.value)
  }

  /** `setTextFill(text, fill)`: a present text takes the colour. */
  function Filled(text: Option<TextObj>, fill: string): Option<TextObj>
  {
    if text.Some? then Some(text.value.(fill := fill)) else None
  }

  /** The game state after `applyThemeToScene`: the score text takes the HUD
      colour, the countdown and win texts the muted one. */
  function Themed(s: Session, colors: ThemeColors): Session
  {
    s.(scoreText := Filled(s.scoreText, colors.hudText),
       countdownText := Filled(s.countdownText, colors.hudTextMuted),
       winText := Filled(s.winText, colors.hudTextMuted))
  }

  /** `applyThemeToScene(scene, theme)`; `hasScene` is false when the game has
      no scene yet, which is left alone. */
  method ApplyThemeToScene(gs: GameState, scene: Scene, hasScene: bool, theme: Option<string>)
    modifies gs`scoreText, gs`countdownText, gs`winText, scene`background
    ensures !hasScene ==> gs.Snapshot() == old(gs.Snapshot()) && scene.background == old(scene.background)
    ensures hasScene ==> gs.Snapshot() == Themed(old(gs.Snapshot()), GetThemeColors(theme))
    ensures hasScene ==> scene.background == GetThemeColors(theme).background
  {
    if !hasScene {
      return;
    }
    var colors := GetThemeColors(theme);
    scene.background := colors.background;
    gs.scoreText := Filled(gs.scoreText, colors.hudText);
    gs.countdownText := Filled(gs.countdownText, colors.hudTextMuted);
    gs.winText := Filled(gs.winText, colors.hudTextMuted);
  }

  // ---------------------------------------------------------------------------
  // colours and sizes

  /** `parseInt(value.replace('#', '0x'))`: the colour picker's `#rrggbb` read
      as a hexadecimal number; `None` is `NaN`. */
  function ParseColor(value: string): Option<int>
  {
    ParseIntAuto(ReplaceFirst(value, '#', "0x"))
  }

  /** `Math.floor(innerWidth / 3)`, the paddle-width slider's maximum. */
  function MaxPaddleWidth(innerWidth: int): (r: int)
    ensures 3 * r <= innerWidth < 3 * r + 3
  {
    innerWidth / 3
  }

  /** Whether `updateBallSpeed` gives the ball a new velocity: only when there
      is a scene and a ball with a body, and the ball is moving. */
  predicate ChangesBallSpeed(hasScene: bool, ball: Option<Ball>)
  {
    hasScene && ball.Some? && ball.value.active && (ball.value.vx != 0.0 || ball.value.vy != 0.0)
  }

  // ---------------------------------------------------------------------------
  // the settings object

  /** The module-level `settings` object, with the page's `data-theme`
      attribute and the storage it writes the theme to. */
  class GameSettings {
    var soundEnabled: bool
    /** The colours are `None` when the picker's value did not parse (`NaN`). */
    var ballColor: Option<int>
    var paddleColor: Option<int>
    var paddleWidth: Option<int>
    var ballSpeed: real
    var theme: string
    var documentTheme: string
    const store: Storage

    /** The defaults, with the page already marked with the default theme. */
    constructor(store: Storage)
      ensures this.store == store
      ensures soundEnabled && ballColor == Some(DEFAULT_OBJECT_COLOR) && paddleColor == Some(DEFAULT_OBJECT_COLOR)
      ensures paddleWidth == Some(PADDLE_WIDTH) && ballSpeed == 1.0
      ensures theme == DEFAULT_THEME && documentTheme == DEFAULT_THEME
    {
      this.store := store;
      soundEnabled := true;
      ballColor := Some(DEFAULT_OBJECT_COLOR);
      paddleColor := Some(DEFAULT_OBJECT_COLOR);
      paddleWidth := Some(PADDLE_WIDTH);
      ballSpeed := 1.0;
      theme := DEFAULT_THEME;
      documentTheme := DEFAULT_THEME;
    }

    /** `initializeTheme()`: the stored theme, sanitised, becomes the setting
        and the page's theme. */
    method InitializeTheme() returns (r: string)
      modifies this`theme, this`documentTheme
      ensures r == ReadStoredTheme(store.GetItem(THEME_STORAGE_KEY))
      ensures theme == r && documentTheme == r
    {
      r := ReadStoredTheme(store.GetItem(THEME_STORAGE_KEY));
      theme := r;
      documentTheme := r;
    }

    /** `applyTheme(theme, game)`: the sanitised theme becomes the setting and
        the page's theme, is stored (when storage works) and is applied to the
        scene (when there is one). */
    method ApplyTheme(t: Option<string>, gs: GameState, scene: Scene, hasScene: bool)
      modifies this`theme, this`documentTheme, store, gs`scoreText, gs`countdownText, gs`winText, scene`background
      ensures theme == SanitizeTheme(t) && documentTheme == theme
      ensures store.available == old(store.available)
      ensures store.items == if store.available then old(store.items)[THEME_STORAGE_KEY := theme] else old(store.items)
      ensures !hasScene ==> gs.Snapshot() == old(gs.Snapshot()) && scene.background == old(scene.background)
      ensures hasScene ==> gs.Snapshot() == Themed(old(gs.Snapshot()), GetThemeColors(t))
      ensures hasScene ==> scene.background == GetThemeColors(t).background
    {
      var normalized := SanitizeTheme(t);
      theme := normalized;
      documentTheme := normalized;
      store.SetItem(THEME_STORAGE_KEY, normalized);
      ApplyThemeToScene(gs, scene, hasScene, Some(normalized));
      ThemeColorsSanitized(t);
    }

    /** The sound toggle's `change` handler. */
    method SetSound(checked: bool)
      modifies this`soundEnabled
      ensures soundEnabled == checked
    {
      soundEnabled := checked;
    }

    /** The ball colour picker's `input` handler (the texture redrawing is not
        part of this model). */
    method SetBallColor(value: string)
      modifies this`ballColor
      ensures ballColor == ParseColor(value)
    {
      ballColor := ParseColor(value);
    }

    /** The paddle colour picker's `input` handler. */
    method SetPaddleColor(value: string)
      modifies this`paddleColor
      ensures paddleColor == ParseColor(value)
    {
      paddleColor := ParseColor(value);
    }

    /** The paddle-width slider's `input` handler: `parseInt(value)`. */
    method SetPaddleWidth(value: string)
      modifies this`paddleWidth
      ensures paddleWidth == ParseIntAuto(value)
    {
      paddleWidth := ParseIntAuto(value);
    }
  }

  // ---------------------------------------------------------------------------
  // the settings button

  /** The game state after the settings button is clicked while the scene and
      its physics exist: a running countdown is cancelled and remembered, and
      the game is paused. */
  function OpenSettings(s: Session): Session
  {
    var t := if s.countdownInterval.Some? then s.(countdownInterval := None, wasInCountdown := true) else s;
    t.SetPaused(true)
  }

  /** The settings button's `click` handler: `hasPhysics` is false when there
      is no scene or it has no physics, and then the game is left as it is. */
  method OpenSettingsHandler(gs: GameState, scene: Scene, hasPhysics: bool)
    modifies gs`countdownInterval, gs`wasInCountdown, gs`paused, scene`physicsPaused, scene`pauseButton
    ensures !hasPhysics ==> gs.Snapshot() == old(gs.Snapshot())
    ensures !hasPhysics ==> scene.physicsPaused == old(scene.physicsPaused) && scene.pauseButton == old(scene.pauseButton)
    ensures hasPhysics ==> gs.Snapshot() == OpenSettings(old(gs.Snapshot()))
    ensures hasPhysics ==> scene.physicsPaused
    ensures hasPhysics ==> scene.pauseButton == if old(scene.pauseButton).Some? then Some(PLAY_ICON) else None
  {
    if !hasPhysics {
      return;
    }
    if gs.countdownInterval.Some? {
      gs.countdownInterval := None;
      gs.wasInCountdown := true;
    }
    gs.SetPaused(true);
    scene.physicsPaused := true;
    if scene.pauseButton.Some? {
      scene.pauseButton := Some(PLAY_ICON);
    }
  }

  // ---------------------------------------------------------------------------
  // properties

  /** Sanitising is idempotent, and the stored (sanitised) theme reads back
      as itself. */
  lemma SanitizeThemeIdempotent(t: Option<string>)
    ensures SanitizeTheme(Some(SanitizeTheme(t))) == SanitizeTheme(t)
    ensures ReadStoredTheme(Got(Some(SanitizeTheme(t)))) == SanitizeTheme(t)
  {
  }

  /** Only 'dark' and 'light' are themes of their own; every other value,
      `null` included, is the light theme. */
  lemma SanitizeThemeCases(t: Option<string>)
    ensures t == Some(DARK) ==> SanitizeTheme(t) == DARK
    ensures t != Some(DARK) ==> SanitizeTheme(t) == LIGHT
  {
  }

  /** The dark palette exactly for the dark theme, the light one otherwise, and
      the palette names the sanitised theme. */
  lemma ThemeColorsSanitized(t: Option<string>)
    ensures GetThemeColors(t) == DARK_COLORS <==> SanitizeTheme(t) == DARK
    ensures GetThemeColors(t) == LIGHT_COLORS <==> SanitizeTheme(t) == LIGHT
    ensures GetThemeColors(t).theme == SanitizeTheme(t)
    ensures GetThemeColors(Some(SanitizeTheme(t))) == GetThemeColors(t)
  {
  }

  /** Applying a theme twice is applying it once, and only colours change. */
  lemma ThemedIdempotent(s: Session, colors: ThemeColors)
    ensures Themed(Themed(s, colors), colors) == Themed(s, colors)
    ensures Themed(s, colors).(scoreText := s.scoreText, countdownText := s.countdownText, winText := s.winText) == s
    ensures Themed(s, colors).scoreText.Some? <==> s.scoreText.Some?
    ensures s.scoreText.Some? ==> Themed(s, colors).scoreText.value.content == s.scoreText.value.content
  {
  }

  /** A `#` followed by hex digits parses to the number they denote. */
  lemma ParseColorOfHex(u: string)
    requires u != [] && AllDigits(u, 16)
    ensures ParseColor("#" + u) == Some(ValueOf(u, 16))
  {
    assert ReplaceFirst("#" + u, '#', "0x") == "0x" + u;
    DigitPrefixAll(u, 16);
    var s := "0x" + u;
    assert !IsWhitespace(s[0]);
    assert TrimStart(s) == s;
    assert s[2..] == u;
  }

  /** The example colour `#ff0000` is the number 0xff0000. */
  lemma ParseColorExample(digits: string)
    requires digits == "ff0000"
    ensures ParseColor("#" + digits) == Some(0xff0000)
  {
    HexFF0000();
    ParseColorOfHex(digits);
  }

  // The value of `ff0000`, one digit at a time.

  lemma HexF()
    ensures AllDigits("f", 16) && ValueOf("f", 16) == 0xf
  {
    assert "f"[..0] == "";
  }

  lemma HexFF()
    ensures AllDigits("ff", 16) && ValueOf("ff", 16) == 0xff
  {
    HexF();
    assert "ff"[..1] == "f";
  }

  lemma HexFF0()
    ensures AllDigits("ff0", 16) && ValueOf("ff0", 16) == 0xff0
  {
    HexFF();
    assert "ff0"[..2] == "ff";
  }

  lemma HexFF00()
    ensures AllDigits("ff00", 16) && ValueOf("ff00", 16) == 0xff00
  {
    HexFF0();
    assert "ff00"[..3] == "ff0";
  }

  lemma HexFF000()
    ensures AllDigits("ff000", 16) && ValueOf("ff000", 16) == 0xff000
  {
    HexFF00();
    assert "ff000"[..4] == "ff00";
  }

  lemma HexFF0000()
    ensures AllDigits("ff0000", 16) && ValueOf("ff0000", 16) == 0xff0000
  {
    HexFF000();
    assert "ff0000"[..5] == "ff000";
  }

  /** Round trip: every colour from 0 to 0xFFFFFF, written by `hexToCss`,
      parses back to itself through the colour picker's conversion. */
  lemma ColorRoundTrip(hex: int)
    requires 0 <= hex <= 0xFFFFFF
    ensures ParseColor(HexToCss(hex)) == Some(hex)
  {
    var d := Digits(hex, 16);
    HexToCssPadded(hex);
    var u := Repeat('0', 6 - |d|) + d;
    DigitsAreDigits(hex, 16);
    LeadingZeros(6 - |d|, d, 16);
    assert HexToCss(hex) == "#" + u;
    ParseColorOfHex(u);
  }

  /** A countdown interrupted by the settings button resumes where it
      stopped: the next `togglePause` unpauses, clears `wasInCountdown` and
      starts a new interval from the published counter, which is the value the
      cancelled interval had reached. */
  lemma InterruptedCountdownResumes(s: Session)
    requires Ui.Synced(s) && s.countdownInterval.Some?
    ensures OpenSettings(s).paused && OpenSettings(s).wasInCountdown && OpenSettings(s).countdownInterval.None?
    ensures !Ui.TogglePause(OpenSettings(s)).paused
    ensures !Ui.TogglePause(OpenSettings(s)).wasInCountdown
    ensures Ui.TogglePause(OpenSettings(s)).countdownInterval == s.countdownInterval
  {
  }

  /** Opening the settings with no countdown running only pauses the game. */
  lemma OpenSettingsIdle(s: Session)
    requires s.countdownInterval.None?
    ensures OpenSettings(s) == s.(paused := true)
    ensures Ui.TogglePause(OpenSettings(s)).countdownInterval.None? <==> !s.wasInCountdown
  {
  }

  /** `updateBallSpeed` leaves a resting ball alone, and changes the speed of
      a moving ball in a scene. */
  lemma BallSpeedGuard(hasScene: bool, ball: Option<Ball>)
    ensures ball.Some? && ball.value.vx == 0.0 && ball.value.vy == 0.0 ==> !ChangesBallSpeed(hasScene, ball)
    ensures hasScene && ball.Some? && ball.value.active && ball.value.vx != 0.0 ==> ChangesBallSpeed(hasScene, ball)
    ensures hasScene && ball.Some? && ball.value.active && ball.value.vy != 0.0 ==> ChangesBallSpeed(hasScene, ball)
    ensures !hasScene || ball.None? ==> !ChangesBallSpeed(hasScene, ball)
  {
  }
}
