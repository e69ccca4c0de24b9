/** The game objects the code reads and writes through Phaser, reduced to the
    fields the game logic touches, and the parts of the page and the physics
    world that the handlers change. */
module SceneObjects {
  import opened Prelude
  import opened Constants

  /** The ball sprite: its position, its body's velocity, and whether it has been
      destroyed (a destroyed sprite is still referenced by `gameState.ball`). */
  datatype Ball = Ball(x: real, y: real, vx: real, vy: real, active: bool)

  /** The paddle sprite: position and display width. */
  datatype Paddle = Paddle(x: real, y: real, width: real)

  /** A text object: what it shows, its fill colour, and whether it is still alive. */
  datatype TextObj = TextObj(content: string, fill: string, active: bool)

  /** One of the small balls that show the lives left. */
  datatype LifeIcon = LifeIcon(x: int, y: int)

  /** The physics rectangle of a brick with the data attached to it:
      `textElement` is the caption (none for an empty text), `row` and
      `isLastInRow` are its `setData` values. */
  datatype BrickObj = BrickObj(x: real, y: int, width: real, textElement: Option<string>,
                               color: int, row: int, isLastInRow: bool, active: bool)

  /** The running countdown interval and the counter captured by its callback. */
  datatype Countdown = Countdown(counter: int)

  /** What of the scene, the physics world and the page the handlers change:
      the physics world's pause flag, the content of the pause button (none when
      the page has no such button), how many "Game Over" texts were added, the
      main camera's background colour, and how many one-second relaunch
      timeouts are still to fire. */
  class Scene {
    var physicsPaused: bool
    var pauseButton: Option<string>
    var gameOverTexts: nat
    var background: string
    var pendingRelaunches: nat

    constructor(hasPauseButton: bool)
      ensures !physicsPaused && gameOverTexts == 0 && background == BACKGROUND_COLOR && pendingRelaunches == 0
      ensures pauseButton == if hasPauseButton then Some("Pause") else None
    {
      physicsPaused := false;
      pauseButton := if hasPauseButton then Some("Pause") else None;
      gameOverTexts := 0;
      background := BACKGROUND_COLOR;
      pendingRelaunches := 0;
    }
  }

  /** `countActive()` of a group. */
  function CountActive(group: seq<BrickObj>): (r: nat)
    ensures r <= |group|
  {
    if group == [] then 0
    else CountActive(group[..|group| - 1]) + (if group[|group| - 1].active then 1 else 0)
  }

  lemma {:induction false} CountActiveAppend(a: seq<BrickObj>, b: seq<BrickObj>)
    ensures CountActive(a + b) == CountActive(a) + CountActive(b)
    decreases |b|
  {
    if b == [] {
      assert a + b == a;
    } else {
      var n := |b| - 1;
      assert (a + b)[..|a + b| - 1] == a + b[..n];
      CountActiveAppend(a, b[..n]);
    }
  }

  /** Destroying one live member lowers the active count by exactly one. */
  lemma {:induction false} CountActiveDestroy(group: seq<BrickObj>, h: nat)
    requires h < |group| && group[h].active
    ensures CountActive(group[h := group[h].(active := false)]) == CountActive(group) - 1
    decreases |group|
  {
    var g := group[h := group[h].(active := false)];
    var n := |group| - 1;
    if h == n {
      assert g[..n] == group[..n];
    } else {
      assert g[..n] == group[..n][h := group[h].(active := false)];
      CountActiveDestroy(group[..n], h);
    }
  }

  /** A group whose members are all live counts all of them. */
  lemma {:induction false} CountActiveAll(group: seq<BrickObj>)
    requires forall k :: 0 <= k < |group| ==> group[k].active
    ensures CountActive(group) == |group|
    decreases |group|
  {
    if group != [] {
      CountActiveAll(group[..|group| - 1]);
    }
  }
}
