/** The shared game state of src/state.js: the `GameState` class, its mutators,
    and the sanitising of the stored high score. `Session` is the value of all
    its fields at one moment; the class methods are specified by the pure
    transitions on `Session`, and the properties are proved about those. */
module State {
  import opened Prelude
  import opened JsStrings
  import opened JsNumbers
  import opened Constants
  import opened SceneObjects
  import opened WebStorage

  const HIGH_SCORE_KEY: string := "brickBreakerHighScore"

  /** `sanitizeHighScore(value)`: `parseInt(value, 10)` kept when it is a number
      from 0 to `Number.MAX_SAFE_INTEGER`, 0 otherwise. `null` (no stored
      value) is converted to the string "null" by `parseInt`. */
  function SanitizeHighScore(value: Option<string>): (r: int)
    ensures 0 <= r <= MAX_SAFE_INTEGER
  {
    var parsed := ParseIntDecimal(if value.Some? then value.value else "null");
    if parsed.None? || parsed.value < 0 || parsed.value > MAX_SAFE_INTEGER then 0 else parsed.value
  }

  /** The high score the constructor starts with: a failing storage read is 0. */
  function StoredHighScore(read: Read): (r: int)
    ensures 0 <= r <= MAX_SAFE_INTEGER
    ensures read.Threw? ==> r == 0
  {
    if read.Threw? then 0 else SanitizeHighScore(read.value)
  }

  /** All fields of `gameState`. */
  datatype Session = Session(
    bricksGroup: Option<seq<BrickObj>>,
    paddle: Option<Paddle>,
    ball: Option<Ball>,
    lives: int,
    livesBalls: seq<LifeIcon>,
    score: int,
    scoreText: Option<TextObj>,
    totalRows: int,
    paused: bool,
    countdownText: Option<TextObj>,
    countdownInterval: Option<Countdown>,
    wasInCountdown: bool,
    currentCountdown: int,
    winText: Option<TextObj>,
    gameEnded: bool,
    bricksCreated: bool,
    highScore: int)
  {
    /** `reset()`: everything back to the start of a game except the high score. */
    function Reset(): Session
    {
      Session(None, None, None, INITIAL_LIVES, [], INITIAL_SCORE, None, 0, true,
              None, None, false, COUNTDOWN_START, None, false, false, highScore)
    }

    /** `updateHighScore()`. */
    function UpdateHighScore(): Session
    {
      if score > highScore then this.(highScore := score) else this
    }

    /** `incrementScore(points)`: the score grows, the score text (if any) shows
        the bare number, and the high score follows. */
    function IncrementScore(points: int): Session
    {
      var score := score + points;
      var text := if scoreText.Some? then Some(scoreText.value.(content := IntToString(score))) else None;
      this.(score := score, scoreText := text).UpdateHighScore()
    }

    /** `decrementLives()`: one life less, and the last life icon (if any) goes. */
    function DecrementLives(): Session
    {
      var icons := if |livesBalls| > 0 then livesBalls[..|livesBalls| - 1] else [];
      this.(lives := lives - 1, livesBalls := icons)
    }

    function SetPaused(paused: bool): Session
    {
      this.(paused := paused)
    }

    function TogglePause(): Session
    {
      this.(paused := !paused)
    }
  }

  // ---------------------------------------------------------------------------
  // the class

  /** A session is the tuple of its fields. */
  lemma SessionFields(s: Session)
    ensures s == Session(s.bricksGroup, s.paddle, s.ball, s.lives, s.livesBalls, s.score, s.scoreText,
                         s.totalRows, s.paused, s.countdownText, s.countdownInterval, s.wasInCountdown,
                         s.currentCountdown, s.winText, s.gameEnded, s.bricksCreated, s.highScore)
  {
  }

  class GameState {
    var bricksGroup: Option<seq<BrickObj>>
    var paddle: Option<Paddle>
    var ball: Option<Ball>
    var lives: int
    var livesBalls: seq<LifeIcon>
    var score: int
    var scoreText: Option<TextObj>
    var totalRows: int
    var paused: bool
    var countdownText: Option<TextObj>
    var countdownInterval: Option<Countdown>
    var wasInCountdown: bool
    var currentCountdown: int
    var winText: Option<TextObj>
    var gameEnded: bool
    var bricksCreated: bool
    var highScore: int
    /** `localStorage`, where the high score is kept. */
    const store: Storage

    function Snapshot(): Session
      reads this
    {
      Session(bricksGroup, paddle, ball, lives, livesBalls, score, scoreText, totalRows,
              paused, countdownText, countdownInterval, wasInCountdown, currentCountdown,
              winText, gameEnded, bricksCreated, highScore)
    }

    /** `new GameState()`: the stored high score, then `reset()`. */
    constructor(store: Storage)
      ensures this.store == store
      ensures highScore == StoredHighScore(store.GetItem(HIGH_SCORE_KEY))
      ensures Snapshot() == Snapshot().Reset()
    {
      this.store := store;
      highScore := StoredHighScore(store.GetItem(HIGH_SCORE_KEY));
      new;
      Reset();
    }

    method Reset()
      modifies this
      ensures Snapshot() == old(Snapshot()).Reset()
    {
      Load(Snapshot().Reset());
    }

    /** Assigns every field at once. */
    method Load(s: Session)
      modifies this
      ensures Snapshot() == s
    {
      LoadPlay(s);
      LoadFlow(s);
      SessionFields(s);
    }

    /** The objects and counters of a session. */
    method LoadPlay(s: Session)
      modifies this`bricksGroup, this`paddle, this`ball, this`lives, this`livesBalls, this`score,
               this`scoreText, this`totalRows
      ensures bricksGroup == s.bricksGroup && paddle == s.paddle && ball == s.ball && lives == s.lives
      ensures livesBalls == s.livesBalls && score == s.score && scoreText == s.scoreText
      ensures totalRows == s.totalRows
    {
      bricksGroup := s.bricksGroup;
      paddle := s.paddle;
      ball := s.ball;
      lives := s.lives;
      livesBalls := s.livesBalls;
      score := s.score;
      scoreText := s.scoreText;
      totalRows := s.totalRows;
    }

    /** The flow flags of a session: pause, countdown, end of game. */
    method LoadFlow(s: Session)
      modifies this`paused, this`countdownText, this`countdownInterval, this`wasInCountdown,
               this`currentCountdown, this`winText, this`gameEnded, this`bricksCreated, this`highScore
      ensures paused == s.paused && countdownText == s.countdownText
      ensures countdownInterval == s.countdownInterval && wasInCountdown == s.wasInCountdown
      ensures currentCountdown == s.currentCountdown && winText == s.winText && gameEnded == s.gameEnded
      ensures bricksCreated == s.bricksCreated && highScore == s.highScore
    {
      paused := s.paused;
      countdownText := s.countdownText;
      countdownInterval := s.countdownInterval;
      wasInCountdown := s.wasInCountdown;
      currentCountdown := s.currentCountdown;
      winText := s.winText;
      gameEnded := s.gameEnded;
      bricksCreated := s.bricksCreated;
      highScore := s.highScore;
    }

    method IncrementScore(points: int)
      modifies this`score, this`scoreText, this`highScore, store
      ensures Snapshot() == old(Snapshot()).IncrementScore(points)
      ensures store.available == old(store.available)
      ensures store.items == HighScoreWritten(old(Snapshot()).(score := old(score) + points), old(store.items), store.available)
    {
      AddScore(points);
      ghost var mid := Snapshot();
      UpdateHighScore();
      IncrementScoreSteps(old(Snapshot()), points);
      assert HighScoreWritten(mid, old(store.items), store.available)
          == HighScoreWritten(old(Snapshot()).(score := old(score) + points), old(store.items), store.available);
    }

    /** The first two lines of `incrementScore`: the score and its text. */
    method AddScore(points: int)
      modifies this`score, this`scoreText
      ensures Snapshot() == old(Snapshot()).(score := old(score) + points,
                                             scoreText := ShowScore(old(scoreText), old(score) + points))
    {
      score := score + points;
      if scoreText.Some? {
        scoreText := Some(scoreText.value.(content := IntToString(score)));
      }
    }

    method DecrementLives()
      modifies this`lives, this`livesBalls
      ensures Snapshot() == old(Snapshot()).DecrementLives()
    {
      lives := lives - 1;
      if |livesBalls| > 0 {
        livesBalls := livesBalls[..|livesBalls| - 1];
      }
    }

    method SetPaused(paused: bool)
      modifies this`paused
      ensures Snapshot() == old(Snapshot()).SetPaused(paused)
    {
      this.paused := paused;
    }

    method UpdateHighScore()
      modifies this`highScore, store
      ensures Snapshot() == old(Snapshot()).UpdateHighScore()
      ensures store.available == old(store.available)
      ensures store.items == HighScoreWritten(old(Snapshot()), old(store.items), store.available)
    {
      if score > highScore {
        highScore := score;
        store.SetItem(HIGH_SCORE_KEY, IntToString(highScore));
      }
    }

    /** `togglePause()`, returning the new value. */
    method TogglePause() returns (r: bool)
      modifies this`paused
      ensures Snapshot() == old(Snapshot()).TogglePause()
      ensures r == paused
    {
      paused := !paused;
      r := paused;
    }
  }

  /** The stored items after `updateHighScore()` in state `s`: a new record is
      written as the decimal string, when storage works. */
  function HighScoreWritten(s: Session, items: map<string, string>, available: bool): map<string, string>
  {
    if s.score > s.highScore && available then items[HIGH_SCORE_KEY := IntToString(s.score)] else items
  }

  // ---------------------------------------------------------------------------
  // properties

  /** A high score written by the game reads back as itself. */
  lemma SanitizeStored(n: int)
    requires 0 <= n <= MAX_SAFE_INTEGER
    ensures SanitizeHighScore(Some(IntToString(n))) == n
  {
    NatToStringRoundTrip(n);
  }

  /** Missing values and non-numbers give 0; a parsed value is kept when it
      lies in range, and gives 0 otherwise. */
  lemma SanitizeCases(value: Option<string>)
    ensures value.None? ==> SanitizeHighScore(value) == 0
    ensures var p := ParseIntDecimal(if value.Some? then value.value else "null");
      && (p.None? ==> SanitizeHighScore(value) == 0)
      && (p.Some? && 0 <= p.value <= MAX_SAFE_INTEGER ==> SanitizeHighScore(value) == p.value)
      && (p.Some? && !(0 <= p.value <= MAX_SAFE_INTEGER) ==> SanitizeHighScore(value) == 0)
  {
    if value.None? {
      NullIsNaN();
    }
  }

  /** `parseInt(null, 10)` reads the text `null`, which is `NaN`. */
  lemma NullIsNaN()
    ensures ParseIntDecimal("null") == None
  {
    var s := "null";
    assert s[0] == 'n';
    NoLeadingDigit(s);
  }

  /** `reset()` forgets everything but the high score. */
  lemma ResetForgets(s: Session, t: Session)
    ensures s.Reset() == t.Reset() <==> s.highScore == t.highScore
    ensures s.Reset().Reset() == s.Reset()
    ensures s.Reset().lives == INITIAL_LIVES && s.Reset().score == INITIAL_SCORE && s.Reset().paused
  {
  }

  /** `incrementScore(p)`: `score' = score + p`, `highScore' = max(highScore,
      score')`, the text shows the new score, and nothing else changes. */
  lemma IncrementScoreEffect(s: Session, points: int)
    ensures var r := s.IncrementScore(points);
      && r.score == s.score + points
      && r.highScore == Max(s.highScore, s.score + points)
      && (r.scoreText.Some? <==> s.scoreText.Some?)
      && (r.scoreText.Some? ==> r.scoreText.value.content == IntToString(r.score))
      && r.(score := s.score, highScore := s.highScore, scoreText := s.scoreText) == s
  {
  }

  /** `updateHighScore()` never lowers the record, reaches the score, and is the
      identity when the score is no record. */
  lemma UpdateHighScoreMonotone(s: Session)
    ensures s.UpdateHighScore().highScore >= s.highScore
    ensures s.UpdateHighScore().highScore >= s.score
    ensures s.score <= s.highScore ==> s.UpdateHighScore() == s
    ensures s.UpdateHighScore().UpdateHighScore() == s.UpdateHighScore()
  {
  }

  /** Two hits give the same state in either order (points are never negative). */
  lemma IncrementsCommute(s: Session, a: int, b: int)
    requires a >= 0 && b >= 0
    ensures s.IncrementScore(a).IncrementScore(b) == s.IncrementScore(b).IncrementScore(a)
  {
    var total := s.score + a + b;
    var r := s.(score := total, scoreText := ShowScore(s.scoreText, total), highScore := Max(s.highScore, total));
    IncrementClosedForm(s, a);
    IncrementClosedForm(s.IncrementScore(a), b);
    IncrementClosedForm(s, b);
    IncrementClosedForm(s.IncrementScore(b), a);
  }

  function ShowScore(text: Option<TextObj>, score: int): Option<TextObj>
  {
    if text.Some? then Some(text.value.(content := IntToString(score))) else None
  }

  /** `incrementScore` is the score update followed by `updateHighScore`. */
  lemma IncrementScoreSteps(s: Session, points: int)
    ensures s.IncrementScore(points)
         == s.(score := s.score + points, scoreText := ShowScore(s.scoreText, s.score + points)).UpdateHighScore()
  {
  }

  lemma IncrementClosedForm(s: Session, points: int)
    ensures s.IncrementScore(points)
         == s.(score := s.score + points, scoreText := ShowScore(s.scoreText, s.score + points),
               highScore := Max(s.highScore, s.score + points))
  {
  }

  /** `decrementLives()` removes exactly one life and at most one icon. */
  lemma DecrementLivesEffect(s: Session)
    ensures s.DecrementLives().lives == s.lives - 1
    ensures |s.livesBalls| > 0 ==> s.DecrementLives().livesBalls == s.livesBalls[..|s.livesBalls| - 1]
    ensures s.livesBalls == [] ==> s.DecrementLives().livesBalls == []
    ensures s.DecrementLives().(lives := s.lives, livesBalls := s.livesBalls) == s
  {
  }

  /** Toggling flips the flag; toggling twice restores the state. */
  lemma TogglePauseTwice(s: Session)
    ensures s.TogglePause().paused == !s.paused
    ensures s.TogglePause().TogglePause() == s
    ensures s.SetPaused(s.paused) == s
  {
  }
}
