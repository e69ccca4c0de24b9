/** The game's fixed numbers (`GAME_CONSTANTS` and `COLORS` in src/constants.js). */
module Constants {

  const INITIAL_LIVES: int := 5
  const INITIAL_SCORE: int := 0
  const PADDLE_WIDTH: int := 100
  const BALL_INITIAL_VELOCITY_X: int := 200
  const BALL_INITIAL_VELOCITY_Y: int := -200
  const BRICK_HEIGHT: int := 24
  const BRICK_PADDING: int := 4
  const BASE_BRICK_WIDTH: int := 10
  const MARGIN_TOP: int := 10
  const COUNTDOWN_START: int := 3

  /** `MAX_BRICK_HEIGHT_RATIO` = 0.75 = 3/4, kept as a fraction so that the
      cut-off `y + BRICK_HEIGHT > innerHeight * 0.75` stays exact. */
  const MAX_BRICK_HEIGHT_NUM: int := 3
  const MAX_BRICK_HEIGHT_DEN: int := 4

  /** Vertical distance between two rows of bricks. */
  const ROW_STEP: int := BRICK_HEIGHT + BRICK_PADDING

  /** `COLORS.BRICK_COLORS`: one colour per row, cycling. */
  const BRICK_COLORS: seq<int> := [0xf44336, 0xffc107, 0x4caf50, 0x2196f3]

  /** `COLORS.BACKGROUND`, `COLORS.TEXT`, `COLORS.TEXT_LIGHT`, `COLORS.GAME_OVER`. */
  const BACKGROUND_COLOR: string := "#FFFFFF"
  const TEXT_COLOR: string := "#000000"
  const TEXT_LIGHT_COLOR: string := "#A9A9A9"
  const GAME_OVER_COLOR: string := "#f00"

  /** `COLORS.PADDLE` and `COLORS.BALL`. */
  const DEFAULT_OBJECT_COLOR: int := 0xA9A9A9
}
