# Brick breaker résumé: a Dafny model

The game turns the text of a résumé into a wall of bricks. Each word becomes a
brick. The bricks are laid out left to right with a greedy line wrap and a
vertical cutoff, and each row is then justified to the right edge of the
window. A ball and a paddle knock the bricks down. Around that sit:

- a session state machine: lives, score, high score, pause, a three-step
  countdown before the serve, and a win check;
- a settings panel with the theme, colour pickers and a paddle-width slider;
- a `.docx` parser that cuts the résumé into tagged text blocks.

The model follows the source file by file:

- `brick_layout.dfy` models `src/brickLayout.js`. `calculateBrickLayout` is a
  method over the elements' texts and the viewport. Its loops keep the
  cursors, `totalRows` and the `bricksByRow` map, with its insertion order,
  exactly as the source does. The method is proved equal to a functional
  reference (`Place`, `Group`, `JustifyAll`). The layout's properties are
  lemmas about that reference. Justification uses exact `real` arithmetic.
- `bricks.dfy` models the second copy of the same algorithm in
  `createBricksFromResume`. That copy creates bricks in the game state's
  brick group, destroys and re-creates them while justifying, raises
  `gameState.totalRows`, and has no flush-row branch. It also models
  `handleBrickCollision` scoring.
- `resume_layout.dfy` compares the two copies for every input. What
  `createBricksFromResume` leaves in an empty group is, row by row of the
  placement, either the layout engine's justified bricks of that row or, for
  a row the pass skips, the live initial bricks at the layout's positions.
- `state.dfy` models `src/state.js`. `GameState` is a class whose methods are
  proved against transition functions on a `Session` value (`Snapshot()`).
- `ui.dfy`, `game.dfy` and `settings.dfy` model the event handlers of
  `src/ui.js`, `src/game.js` and `src/settings.js`. Each handler is a method
  on `GameState` and a small `Scene` object. Timers become explicit events:
  `CountdownTick` is one firing of the countdown interval, and `Relaunch` is
  the one-second relaunch timeout. Each handler is proved against a
  transition function, and the timing properties are lemmas about those
  functions.
- `parser.dfy` models the extension gate and the block extraction of
  `parser.js`. The converted document's top-level nodes are the input.
- `js_strings.dfy` and `js_numbers.dfy` model the ECMAScript built-ins these
  files rely on: `split`, `trim`, `toLowerCase`, `parseInt`,
  `toString(radix)`, `padStart` and `length`, which counts UTF-16 code
  units, so a character beyond the Basic Multilingual Plane counts twice. `web_storage.dfy` models
  `localStorage`, including a store that throws. `scene_objects.dfy` holds
  the Phaser objects as records.

Where the source's two layout copies, or its code and its tests, disagree,
the model follows the code:

- `createBricksFromResume` never runs the flush-row branch. A row whose last
  word already reaches the right edge keeps every `isLastInRow` flag false.
  `calculateBrickLayout` flags that row's last brick. `RowAgainstLayout`
  states this for every row; `FlushRowUnflagged` and
  `FlushRowFlaggedInLayout` show it on one word.
- `incrementScore` writes the bare number to the score text, not
  `Score: n`.
- The countdown's launch velocity is not scaled by the speed setting. The
  relaunch after a lost life is scaled.
- The win check in `update` never sets `gameEnded`.
- The pause button's text is `Play` or `Pause`, as `src/ui.js:81` writes it.
- The bricks are laid out from the parsed element list, not from a parser
  call as one test mocks.

## Model

| member | source | states |
|---|---|---|
| BrickLayout.CalculateBrickLayout | src/brickLayout.js:33-122 | the bricks and `totalRows` it returns are exactly those of the reference layout of the elements in the viewport |
| BrickLayout.PlaceWords | src/brickLayout.js:34-71 | after the nested word loops, the placed bricks are the reference placement of all words, `totalRows` is one more than the largest row index, and the row map with its key order holds the runs of equal row index in order |
| BrickLayout.PlaceElementWords | src/brickLayout.js:42-70 | the words of one element extend the reference placement of the words before them by exactly those words, keeping `totalRows` and the row map in step |
| BrickLayout.PlaceWord | src/brickLayout.js:43-70 | one word moves the cursor and the placed list exactly as one more step of the reference placement, keeping `totalRows` and the row map in step |
| BrickLayout.RecordBrick | src/brickLayout.js:53-67 | a placed brick raises `totalRows` to the row count of the placed bricks and is entered under its row, keeping the map equal to the row groups |
| BrickLayout.AddToRow | src/brickLayout.js:56-67 | the `has`/`set`/`get().push` sequence keeps the map and its insertion order equal to the row groups of the placed list extended by the new brick |
| BrickLayout.JustifyRows | src/brickLayout.js:76-120 | visiting the map in insertion order yields the justified rows concatenated in row order |
| BrickLayout.JustifyOneRow | src/brickLayout.js:77-119 | one row's loop yields exactly the reference justification of that row |
| BrickLayout.SpreadRow | src/brickLayout.js:83-104 | in a row with free space, each brick moves right by the shares before it and grows by one share, giving the reference justification of the row |
| BrickLayout.KeepRow | src/brickLayout.js:105-118 | in a row without free space, the bricks keep position and width and only the last is flagged, as the reference justification says |
| BrickLayout.Group | src/brickLayout.js:56-59 | grouping by row index gives no empty group, and no group at all only for no bricks |
| BrickLayout.GroupSnoc | src/brickLayout.js:56-67 | a new brick joins the last group when it shares that group's row index, and otherwise opens a new group |
| BrickLayout.GroupFlatten | src/brickLayout.js:76-120 | concatenating the row groups gives back the placed bricks, in order: nothing is lost or reordered |
| BrickLayout.GroupUniform | src/brickLayout.js:56-59 | all bricks of a group share its row index |
| BrickLayout.GroupRunsMaximal | src/brickLayout.js:56-59 | two neighbouring groups have different row indexes |
| BrickLayout.GroupMembers | src/brickLayout.js:56-59 | every brick of a group is one of the placed bricks |
| BrickLayout.RunMapDomain | src/brickLayout.js:56-58 | a row index is a key of the map exactly when some group has it |
| BrickLayout.RunMapAt | src/brickLayout.js:56-59 | with increasing row indexes, the map entry of the i-th group's row is that group |
| BrickLayout.TracksStep | src/brickLayout.js:56-67 | a key is already present exactly when the new brick continues the last row, and the updated map and order track the extended grouping |
| BrickLayout.WordsAreWords | src/brickLayout.js:42 | every word of the whitespace split is non-empty and contains no whitespace |
| BrickLayout.WordsOfJoin | src/brickLayout.js:42 | words joined by single spaces split back into the same words, in order |
| BrickLayout.PlacedBrickWell | src/brickLayout.js:44-67 | a brick emitted at a reachable cursor has width `10 * length + 10`, ends by the right edge unless it starts a line at x = 10, lies above the cutoff on line `10 + 28 * row` with a row of 0 or more, and has colour `BRICK_COLORS[row % 4]` |
| BrickLayout.StepKeepsInv | src/brickLayout.js:43-70 | one placement step keeps every emitted brick well placed and in reading order, and never moves the cursor up |
| BrickLayout.PlaceInvariant | src/brickLayout.js:41-71 | every brick of the placement is well placed, bricks follow each other in reading order, and the placed words are a prefix of the words |
| BrickLayout.CursorAhead | src/brickLayout.js:46-69 | the cursor stays on a row line, at or below the last emitted brick's row |
| BrickLayout.StepBelowCutoff | src/brickLayout.js:50 | below the cutoff a word is dropped and the cursor stays below the cutoff |
| BrickLayout.DroppedStaysDropped | src/brickLayout.js:46-50 | once a word has been dropped, every later word is dropped too |
| BrickLayout.TotalRowsSnoc | src/brickLayout.js:53 | one more brick makes `totalRows` the larger of the old value and its row plus one |
| BrickLayout.TotalRowsBound | src/brickLayout.js:37-53 | every brick's row is below `totalRows`, and no bricks give 0 |
| BrickLayout.TotalRowsLast | src/brickLayout.js:53 | for non-decreasing rows, `totalRows` is the last brick's row plus one |
| BrickLayout.JustifyRowAt | src/brickLayout.js:83-119 | brick j of a row is moved by `j * extra` and widened by `extra` when space remains, and kept otherwise; only the last brick is flagged |
| BrickLayout.JustifyRowKeeps | src/brickLayout.js:88-118 | justifying keeps the row's length, each brick's y, text, colour and row, and flags exactly the last brick |
| BrickLayout.JustifyRowSpread | src/brickLayout.js:83-104 | with space remaining, every brick gets the same positive extra, the gaps between neighbours are unchanged, and the last brick ends exactly on the right edge |
| BrickLayout.RightEdgeReached | src/brickLayout.js:79-104 | with space remaining, the justified row's last brick ends exactly on the right edge |
| BrickLayout.JustifyRowFlush | src/brickLayout.js:105-119 | with no space remaining, every brick keeps its x and width |
| BrickLayout.GroupFormsRows | src/brickLayout.js:52-59 | every group is a non-empty run of one row index |
| BrickLayout.JustifyAllAligned | src/brickLayout.js:76-120 | the justified output has one brick per placed brick, with the same y, text, colour and row, in order |
| BrickLayout.JustifyAllFlags | src/brickLayout.js:91-108 | in the output, a brick is flagged exactly when it is the last brick of its row |
| BrickLayout.LayoutBricks | src/brickLayout.js:41-120 | the k-th output brick carries the k-th word, lies on line `10 + 28 * row` above the cutoff, has its row's colour, and rows never decrease; the output is no longer than the word list |
| BrickLayout.LayoutFlags | src/brickLayout.js:91-108 | each row of the layout has exactly one flagged brick, its last |
| BrickLayout.LayoutTotalRows | src/brickLayout.js:37-122 | `totalRows` is 0 exactly when there are no bricks, and otherwise the last brick's row plus one and bounds every row |
| BrickLayout.HexToCssPadded | src/brickLayout.js:130-132 | a colour up to `0xFFFFFF` has at most 6 hex digits and is written `#` plus zeros plus those digits |
| BrickLayout.HexToCssShape | src/brickLayout.js:130-132 | the result is 7 characters: `#` and six lower-case hex digits |
| JsNumbers.DigitsLowercase | src/brickLayout.js:131 | `toString(16)` writes only lower-case digits |
| JsNumbers.NatToStringRoundTrip | src/state.js:4-10 | `parseInt(String(n), 10)` gives back n |
| JsNumbers.NatToStringAutoRoundTrip | src/settings.js:202-204 | `parseInt(String(n))` with no radix gives back n, so the width slider's decimal text sets exactly that width |
| JsStrings.SplitOnLast | parser.js:26 | the last piece of a split is the text after the last separator |
| JsStrings.TrimIsTrimmed | parser.js:49 | a trimmed string neither starts nor ends with whitespace |
| State.SanitizeHighScore | src/state.js:4-10 | the result always lies between 0 and `Number.MAX_SAFE_INTEGER` |
| State.SanitizeCases | src/state.js:4-10 | no stored value and an unparsable one give 0; a parsed value is returned exactly when it lies in range, and any other value gives 0 |
| State.SanitizeStored | src/state.js:4-10 | a high score written as `String(n)` reads back as n |
| State.StoredHighScore | src/state.js:13-18 | the starting high score always lies between 0 and `Number.MAX_SAFE_INTEGER`, and is 0 when reading storage throws |
| State.GameState.constructor | src/state.js:13-20 | the new state has the stored high score and is otherwise the reset state |
| State.GameState.Reset | src/state.js:22-39 | the new state is the reset session: every field at its start value except the high score |
| State.GameState.IncrementScore | src/state.js:41-47 | the new state is the incremented session, and storage receives the new high score exactly when it rose and storage works |
| State.GameState.AddScore | src/state.js:42-45 | the score grows by the points and a present score text shows the new score; nothing else changes |
| State.GameState.DecrementLives | src/state.js:49-53 | the new state is the session with one life and one icon fewer |
| State.GameState.SetPaused | src/state.js:55-57 | only `paused` changes, to the given value |
| State.GameState.UpdateHighScore | src/state.js:59-67 | the new state raises the high score to the score when it is higher, and storage is written exactly then |
| State.GameState.TogglePause | src/state.js:69-72 | `paused` flips and the new value is returned |
| State.ResetForgets | src/state.js:22-39 | two resets agree exactly when the high scores agree; reset is idempotent and gives 5 lives, score 0 and paused |
| State.IncrementScoreEffect | src/state.js:41-47 | the score rises by exactly the points, the high score becomes the larger of old high score and new score, a present score text shows the new score, and nothing else changes |
| State.IncrementClosedForm | src/state.js:41-61 | incrementing is the same as setting score, score text and high score directly |
| State.IncrementsCommute | src/state.js:41-47 | two non-negative increments give the same state in either order |
| State.UpdateHighScoreMonotone | src/state.js:59-61 | the high score never decreases, reaches at least the score, is unchanged when the score is not higher, and a second update changes nothing |
| State.DecrementLivesEffect | src/state.js:49-53 | lives drop by exactly one, the last icon goes when there is one, an empty list stays empty, and nothing else changes |
| State.TogglePauseTwice | src/state.js:55-72 | toggling flips `paused`, toggling twice restores the state, and setting the same value changes nothing |
| Bricks.CreateBricksFromResume | src/bricks.js:77-153 | the new state has the placed and justified bricks in its group, `totalRows` raised by the placement, and `bricksCreated` set |
| Bricks.BuildResumeBricks | src/bricks.js:78-150 | placement followed by justification yields the reference résumé bricks and the reference `totalRows` |
| Bricks.PlaceResumeWords | src/bricks.js:78-118 | the loops place exactly the words the layout engine places, add one initial brick per placed word to the group, raise `totalRows` the same way, and track the rows by map |
| Bricks.PlaceResumeElement | src/bricks.js:85-117 | the words of one element extend the reference placement by exactly those words, adding one initial brick each to the group and keeping `totalRows` and the row map in step |
| Bricks.PlaceResumeWord | src/bricks.js:86-117 | one word advances the placement as one reference step and keeps group, `totalRows` and row map in step |
| Bricks.RecordResumeBrick | src/bricks.js:95-114 | a placed brick is created in the group, counted into `totalRows` and entered under its row |
| Bricks.AddResumeEntry | src/bricks.js:102-114 | the entry for the newly created brick joins its row in the tracked row map, so the map still holds the runs of equal row index of all entries |
| Bricks.JustifyResumeRows | src/bricks.js:121-150 | visiting the rows in insertion order gives the group with every row replaced as the reference says |
| Bricks.ReplaceResumeRow | src/bricks.js:122-149 | one row's loop destroys and re-creates each of its bricks as the reference replacement, and never shrinks the group |
| Bricks.SpreadResumeRow | src/bricks.js:128-148 | each entry of a spread row has its brick destroyed and its replacement added, so the group becomes the reference replacement of the row, never smaller |
| Bricks.SpreadReplacements | src/bricks.js:130-145 | the justified brick for each entry rebuilds to a brick moved right by the shares before it and one share wider, flagged only at the row end |
| Bricks.ReplaceFromCount | src/bricks.js:133-148 | replacing a row's live bricks one for one keeps the number of active bricks |
| ResumeLayout.ResumeAsLayout | src/bricks.js:73-152 | from an empty group, the bricks left are the placed bricks in placement order, destroyed exactly in the rows with free space, followed row after row by the rebuilt justified bricks of those rows; the layout's bricks are the same rows justified, in the same order |
| ResumeLayout.LayoutAsRows | src/brickLayout.js:76-120 | the layout is the concatenation of its rows' justified bricks |
| ResumeLayout.RowAgainstLayout | src/bricks.js:121-150 | in a row with free space every placed brick ends destroyed; in any other row every placed brick stays live, unflagged, at the layout's x, y and width, while the layout flags the row's last brick |
| BrickLayout.AstralBrickWidth | src/bricks.js:87 | a word of one character outside the Basic Multilingual Plane is 30 wide, as a two-letter word |
| JsStrings.Utf16Length | src/brickLayout.js:44 | `length` counts UTF-16 code units: between the number of characters and twice that, and 0 only for the empty string |
| JsStrings.Utf16LengthAppend | src/brickLayout.js:44 | the length of a concatenation is the sum of the lengths |
| JsStrings.Utf16LengthBmp | src/brickLayout.js:44 | without characters beyond the Basic Multilingual Plane, the length is the number of characters |
| JsStrings.Utf16LengthAstral | src/brickLayout.js:44 | a character beyond the Basic Multilingual Plane adds two to the length |
| Bricks.JustifyGroupCount | src/bricks.js:121-150 | justification keeps the number of active bricks |
| Bricks.ResumeCount | src/bricks.js:84-150 | after placement and justification, the active bricks number the old ones plus one per placed word |
| Bricks.TotalRowsFromOf | src/bricks.js:96 | raising a non-negative `totalRows` gives the larger of it and the layout's row count |
| Bricks.PlacedLines | src/bricks.js:67-96 | every placed brick's stored row lies between 0 and the new `totalRows` |
| Bricks.ResumeRows | src/bricks.js:67-152 | after loading, `totalRows` is the larger of the old value and the layout's count, `bricksCreated` holds, and every brick's row is below `totalRows` |
| Bricks.HandleBrickCollision | src/bricks.js:155-164 | the new state is the session after hitting that brick: score raised, brick destroyed |
| Bricks.HitEffect | src/bricks.js:155-164 | a hit adds exactly `(totalRows - row) * 10`, at least 10 for a row below `totalRows`, updates the high score, deactivates that brick only, and leaves lives, rows and pause alone |
| Bricks.HitsCommute | src/bricks.js:155-164 | two hits give the same state in either order |
| Bricks.DestroyCommute | src/bricks.js:163 | destroying two bricks commutes and keeps every brick's row |
| Bricks.FlushPlacement | src/bricks.js:84-118 | a 27-letter word in a window 300 wide is one brick at (10, 10), 280 wide, on row 0 |
| Bricks.FlushRowUnflagged | src/bricks.js:121-152 | that flush row leaves its only brick active and not flagged `isLastInRow` |
| Bricks.FlushRowFlaggedInLayout | src/brickLayout.js:105-119 | the layout engine flags that same brick as the last of its row |
| Ui.CreateLivesDisplay | src/ui.js:4-14 | the loop builds exactly the icon list for the current lives and nothing else changes |
| Ui.LivesIconsLayout | src/ui.js:4-14 | there are `lives` icons (none for negative lives), the i-th at x = 20 + 30i, 20 pixels above the bottom |
| Ui.IconsFollowLives | src/ui.js:4-14 | losing a life leaves exactly the icon list for one life fewer |
| Ui.CreateScoreText | src/ui.js:16-23 | the score text becomes `Score: ` and the score, in the text colour |
| Ui.CreateCountdownText | src/ui.js:48-55 | the countdown text shows the current countdown value in the light text colour |
| Ui.ShowGameOver | src/ui.js:57-64 | one more game-over text is shown |
| Ui.ShowWinMessage | src/ui.js:66-73 | the win text becomes a new, active text showing the win message, and nothing else changes |
| Ui.StartCountdownTimer | src/ui.js:25-28 | an interval starts whose counter is the current countdown value |
| Ui.CountdownTick | src/ui.js:28-45 | one firing of the interval changes the state exactly as one countdown tick |
| Ui.ExpireCountdown | src/ui.js:34-44 | at zero the countdown text is destroyed and, for an active ball, the launch follows; the state is exactly the reference expiry |
| Ui.LaunchBall | src/ui.js:36-43 | the ball gets the initial velocity, the game is unpaused, the interval cleared and the counter reset; nothing else changes |
| Ui.TransitionsKeepSynced | src/ui.js:26-44 | starting, ticking and the pause toggle keep the interval's counter equal to `currentCountdown` |
| Ui.TickCounts | src/ui.js:29-33 | a tick above 1 only lowers the counter and `currentCountdown` by one and shows the new value |
| Ui.CountdownRunning | src/ui.js:28-34 | after k ticks, with k below the start value, only the counter, `currentCountdown` and the shown value changed, each down by k |
| Ui.CountdownLaunches | src/ui.js:35-43 | exactly c ticks from c launch the ball, unpause, clear the interval, destroy the text and reset `currentCountdown` to 3; nothing else changes |
| Ui.TogglePauseHandler | src/ui.js:75-91 | the state changes exactly as the pause toggle, the physics world's pause follows, and a present button shows `Play` or `Pause` |
| Ui.TogglePauseRestarts | src/ui.js:76-90 | resuming with `wasInCountdown` clears the flag, shows an active countdown text and restarts the interval from `currentCountdown`; any other toggle only flips `paused` |
| Ui.RestartText | src/ui.js:86-88 | on that restart an active countdown text is kept, and a missing or destroyed one is recreated |
| Settings.SanitizeTheme | src/settings.js:31-39 | the result is `dark` exactly for `dark` and `light` for anything else |
| Settings.SanitizeThemeCases | src/settings.js:31-39 | `dark` maps to dark and every other value, `null` included, to light |
| Settings.SanitizeThemeIdempotent | src/settings.js:31-47 | sanitizing twice is sanitizing once, and a stored sanitized theme reads back unchanged |
| Settings.ReadStoredTheme | src/settings.js:41-47 | a throwing storage gives the default theme |
| Settings.ThemeColorsSanitized | src/settings.js:57-72 | the dark palette is chosen exactly for a sanitized `dark`, the light one otherwise, and the palette names its theme |
| Settings.ApplyThemeToScene | src/settings.js:89-101 | without a scene nothing changes; with one, the background and the three HUD text fills take the theme's colours |
| Settings.ThemedIdempotent | src/settings.js:74-101 | theming twice is theming once, changes nothing but the three HUD texts, and keeps the score text's presence and content |
| Settings.GameSettings.constructor | src/settings.js:22-29 | the settings start with sound on, both colours `0xA9A9A9`, paddle width 100, speed 1 and the light theme |
| Settings.GameSettings.InitializeTheme | src/settings.js:103-110 | the theme and the document theme become the stored sanitized theme, which is returned |
| Settings.GameSettings.ApplyTheme | src/settings.js:112-122 | the theme becomes the sanitized value, is written to working storage, and is applied to a present scene |
| Settings.GameSettings.SetSound | src/settings.js:182-188 | sound follows the checkbox |
| Settings.GameSettings.SetBallColor | src/settings.js:190-194 | the ball colour becomes the parsed picker value |
| Settings.GameSettings.SetPaddleColor | src/settings.js:196-200 | the paddle colour becomes the parsed picker value |
| Settings.GameSettings.SetPaddleWidth | src/settings.js:202-204 | the paddle width setting becomes `parseInt` of the slider value; nothing else in the settings changes |
| Settings.ParseColorOfHex | src/settings.js:192 | `#` followed by hex digits parses to their value |
| Settings.ParseColorExample | src/settings.js:192 | `#` followed by the digits `ff0000` parses to `0xff0000` |
| Settings.ColorRoundTrip | src/settings.js:192 | parsing `hexToCss(h)` gives back h for every colour up to `0xFFFFFF` |
| Settings.MaxPaddleWidth | src/settings.js:216-218 | the slider maximum is `floor(innerWidth / 3)` |
| Settings.OpenSettingsHandler | src/settings.js:145-168 | with physics, the state changes as opening settings, the world pauses and the button shows the play icon; without physics nothing changes |
| Settings.InterruptedCountdownResumes | src/settings.js:150-158 | opening settings during the countdown stops it, sets `wasInCountdown` and pauses; the next toggle resumes from the same counter |
| Settings.OpenSettingsIdle | src/settings.js:150-158 | with no countdown running, opening settings only pauses, and the next toggle restarts a countdown only if one was interrupted earlier |
| Settings.BallSpeedGuard | src/settings.js:315-320 | a ball at rest is never rescaled; with a scene and a moving, live ball the speed is applied; without a scene or a ball nothing is |
| Game.Create | src/game.js:216-238 | the new state is the created round under the current theme, and the background takes the theme's colour |
| Game.NewRound | src/game.js:220-232 | the win text is cleared, score, lives and `bricksCreated` are reset, and a new empty group, paddle and resting ball are made |
| Game.ResetRound | src/game.js:220-227 | a stale win text is cleared and score, lives and `bricksCreated` return to their initial values; nothing else changes |
| Game.CreateRoundObjects | src/game.js:228-232 | an empty brick group, a paddle and a resting ball are made; nothing else changes |
| Game.CreateResets | src/game.js:216-237 | after `create`, score is 0, lives 5, five icons exist, `bricksCreated` is false, no win text exists, the ball rests, the high score and countdown are kept, and no win is due |
| Game.BricksLoaded | src/game.js:239-243 | after loading, the bricks are created, a countdown text shows the countdown value and the countdown starts |
| Game.WorldBoundsHandler | src/game.js:158-163 | the state changes as the world-bounds event; no relaunch and no game-over text unless the ball left at the bottom |
| Game.WorldBoundsFilter | src/game.js:158-163 | only the ball leaving at the bottom costs a life; any other event changes nothing |
| Game.LoseLifeHandler | src/game.js:194-214 | the state changes as `loseLife`, a relaunch is scheduled exactly when lives remain for a live ball, and a game-over text is added exactly when no lives remain |
| Game.LoseLifeServes | src/game.js:194-199 | with lives left and a live ball, one life is lost and the ball goes back to `(innerWidth / 2, innerHeight - 80)` and stops; nothing else changes |
| Game.LoseLastLife | src/game.js:209-213 | losing the last life destroys the ball and schedules no relaunch |
| Game.Relaunch | src/game.js:201-208 | one relaunch timeout fires and the state changes as the relaunch |
| Game.RelaunchEffect | src/game.js:201-208 | with lives left and a live ball, the velocity becomes `(200, -200)` times the speed setting; with no lives or no ball nothing changes; only the ball's velocity can ever change |
| Game.ServeThenRelaunch | src/game.js:194-208 | a lost life followed by its relaunch leaves the ball at the serve position with the scaled initial velocity |
| Game.PointerMove | src/game.js:176-186 | the state changes as the pointer-move handler |
| Game.ClampBounds | src/game.js:180-184 | the clamp lies in `[lo, hi]`, is the identity inside, and gives the nearer bound outside |
| Game.PaddleInsideWindow | src/game.js:176-186 | while running, the paddle lies wholly inside the window; while paused nothing changes; only the paddle's x can change |
| Game.UpdateHandler | src/game.js:246-259 | the state changes as one `update` frame |
| Game.WinCheck | src/game.js:249-258 | a frame changes the state exactly when the win is due; it then shows the win text, stops a live ball and pauses, and never sets `gameEnded` |
| Game.WinAtMostOnce | src/game.js:249-254 | a second frame changes nothing: the win fires at most once |
| Parser.ExtractTextFromFile | parser.js:25-58 | a non-`docx` file gives no blocks; otherwise the loops collect exactly the reference blocks of the nodes |
| Parser.CollectNode | parser.js:46-55 | one child node appends exactly its reference blocks, tagged, to the collected elements; a non-element node appends nothing |
| Parser.PushBlocks | parser.js:52-54 | the blocks are appended in order, each paired with the tag |
| Parser.ExtensionAfterLastDot | parser.js:26 | the extension is the text after the last dot, lower-cased |
| Parser.TxtRefused | parser.js:26-31 | `file.txt` is refused |
| Parser.UpperDocxAccepted | parser.js:26-28 | `resume.DOCX` is accepted |
| Parser.BlocksClean | parser.js:49-51 | every block is non-empty, trimmed and free of separator characters |
| Parser.TrimmedNonEmpty | parser.js:51 | trimming and dropping empty pieces never adds pieces |
| Parser.TrimmedNonEmptyClean | parser.js:51 | separator-free pieces become trimmed, non-empty, separator-free blocks |
| Parser.TrimmedNonEmptyKeeps | parser.js:51 | pieces already trimmed and non-empty are all kept |
| Parser.SingleBlock | parser.js:49-51 | a trimmed text without separators is one block |
| Parser.BulletSplit | parser.js:51 | the four separator characters of a line break and a mis-decoded bullet make three empty pieces between the text before and after |
| Parser.BulletLine | parser.js:51 | a line break plus bullet between two clean texts gives exactly those two blocks |
| Parser.ExtractedSnoc | parser.js:46-55 | one more node adds its own blocks at the end |
| Parser.ExtractedAppend | parser.js:45-56 | the blocks of two runs of nodes are the first run's followed by the second's |
| Parser.OnlyElementNodes | parser.js:46-47 | dropping every non-element node changes nothing |
| Parser.ExtractedFromNodes | parser.js:46-54 | every block carries the lower-cased tag of an element node and is one of that node's blocks |
| Parser.ResumeDocument | parser.js:45-56 | a loose text node, a clean paragraph and a paragraph with a bullet line give exactly the three `p` blocks, in order |
| Parser.ParsingExample | parser.js:45-56 | `Loose text<p>Heading</p><p>Line one\nâ€¢Bullet entry</p>` gives `Heading`, `Line one` and `Bullet entry`, each tagged `p` |

## Left out

- Fetching `assets/resume.json` and the allowed-path check are I/O. The model starts from the parsed element texts.
- Phaser rendering is not modelled: graphics, textures, gradients, fonts, depths and colliders. A brick is a record with an `active` flag in a sequence, and a destroyed object stays in memory as inactive.
- The physics engine is not modelled. Collisions and world-bounds exits arrive as events with their arguments.
- Audio loading and `playSound` are asynchronous asset I/O and are left out.
- `setInterval` and `setTimeout` are left out. The model has explicit tick and relaunch events. Only one countdown interval exists at a time, which is how the source uses it.
- Event wiring is left out: the DOM buttons, the modal, keyboard and resize listeners, `main.js`, `src/overlay.js` and `src/config.js`. `document.documentElement.dataset.theme` is the field `documentTheme`.
- `console.error` calls only print and are left out.
- The parser's Mammoth loading, `FileReader` and `DOMParser` are foreign libraries. The top-level nodes of the converted document are the input.
- JS double arithmetic is not modelled. Justification is exact `real` arithmetic, so the right-edge equality holds exactly here, not bit for bit in JS.
- `toLowerCase` changes only the 26 ASCII capitals.
- Text objects: `setText` on a destroyed text still updates its content in the model.
- Settings.BallSpeedGuard: covers the zero-velocity guard of `updateBallSpeed` only. The rescale that keeps the direction needs `Math.sqrt` on doubles.
- Settings: the ball-speed slider's `parseFloat` is not modelled. The speed is a `real` parameter.
- Game.Create: the paddle texture's width is a parameter, because it comes from canvas drawing.
- Bricks.CreateBricksFromResume: requires the brick group to exist, because the source calls `add` on it.
- Game.BricksLoaded: requires the brick group to exist, for the same reason.
- Settings.GameSettings.SetPaddleWidth: the handler's `updatePaddleTexture` call (src/settings.js:206, 309-312) also gives the live paddle the new width, through `setTexture`, `setDisplaySize` and `body.setSize`. The pointer clamp of `Game.PointerMove` reads that width. The model keeps the paddle's width from `Game.Create`, so after a slider change its clamp uses the old width. The colour pickers call the same redraw, which re-applies the current width setting to the paddle; in the model their handlers change only the colour setting.
- The rest of the texture and canvas code of `src/game.js` and `src/settings.js` draws pixels only and is left out.
- `scripts/generate_resume_json.js` is file I/O that repeats the parser's block split. It is not part of this model.
