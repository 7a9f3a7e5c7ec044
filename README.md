# A verified model of the corinthium terminal game

`game.js` draws a side-scrolling game as text. A ten-glyph body (the word
"corinthium", head last) falls under gravity and jumps when the player
presses. Pairs of top and bottom columns scroll in from the right. The game
ends when a segment lands on a non-blank glyph of the play field or on a
vertical bar. This project models the game's engine with the browser taken
away:

- the text helpers (`stringToMatrix`, the frame serialisation, `repeatTrunc`,
  `genHeaderFooter`);
- the canvas (`fill`, `draw`);
- the column art (`topColumn`, `bottomColumn`);
- the spawn, column render and collision blocks of `render`;
- `tick`, `initialState` and `onActivate`.

The model has two layers:

- **Values.** Modules `Text`, `Canvas`, `Columns`, `Obstacles`, `Body` and
  `Game` describe every step as a function over values. The game state is a
  `World` value. `Game.RenderOnce`, `Game.Render`, `Game.Tick` and
  `Game.Activate` give the state and the frame each step leaves. The lemmas
  in these modules state what the game promises.
- **The running state.** Module `Loop` holds the class `GameState`. Its
  fields are the state object of `game.js`: two column lists, `vy`,
  `segmentYs` as an `array<real>` and `gameOverAt`. Its methods update those
  fields in place, with the source's loops, on an `array2<char>` canvas.
  Each method is proved to leave exactly the state the matching `Game`
  function gives for the old state. The loops that walk a list or an array
  are module-level methods of `Loop`, such as `SpawnGates`, `RenderColumns`,
  `CheckCollisions` and `PullTaut`, so that each loop reasons about one
  structure. The class methods call them and then assign the fields.

Inputs the program gets from the browser are parameters:

- the window size is `GameState`'s `width` and `height`;
- the random draws are an `Rng` value, holding `distance`, `gap` and `gapY`
  as functions of the spawn loop's iteration;
- the clock is the `now` argument.

## Model

| member | source | states |
|---|---|---|
| Text.StringToMatrix | game.js:116-118 | a string with k line breaks splits into k + 1 rows, none of which holds a line break |
| Text.SerialiseStringToMatrix | game.js:116-118 | joining the rows of `stringToMatrix(s)` with '\n' (the serialisation at game.js:400) gives back `s` |
| Text.Serialise | game.js:400 | the frame text: the canvas rows joined with '\n'; `SerialiseStringToMatrix` and `StringToMatrixSerialise` state that it inverts `stringToMatrix` |
| Text.StringToMatrixSerialise | game.js:400 | splitting the serialisation of one or more break-free rows gives back those rows |
| Text.StringToMatrixPrefix | game.js:116-118 | splitting a break-free line followed by text glues the line onto the text's first row |
| Text.Cycle | game.js:92-98 | the first `n` glyphs of the fill repeated without end; `CycleAt` states its length and glyphs |
| Text.CycleAt | game.js:92-98 | the repetition has max(n, 0) glyphs, and glyph i is `fill[i % fill.length]` |
| Text.RepeatTrunc | game.js:92-98 | the loop builds the first `width` glyphs of the endlessly repeated fill |
| Text.BandRow | game.js:106-110 | a band row: left piece, the cycled fill across the remaining width, right piece; `BandRowShape` states its width and contents |
| Text.BandRowShape | game.js:106-110 | a band row is exactly `width` cells when its pieces fit; it starts with the left piece, ends with the right piece and cycles the fill between them |
| Text.GenHeaderFooter | game.js:100-114 | fails with the mismatch error exactly when some piece has left and right pieces of different lengths; otherwise gives one band row per piece, in order |
| Text.BandsWellFormed | game.js:21-90 | the header has 9 pieces and the footer 4; all are balanced, every fill is non-empty, and no piece pair is wider than 24 cells |
| Canvas.Blit | game.js:241-247 | the grid `draw` leaves: the buffer written over the old grid from (`x`, `y`); `BlitAt` states its cells |
| Canvas.BlitAt | game.js:241-247 | after a blit, a covered cell holds the buffer's glyph and every other cell keeps its own |
| Canvas.BlitGlyph | game.js:373 | blitting a single glyph changes exactly one cell |
| Canvas.Filled | game.js:233-239 | the `h`-by-`w` grid of one glyph that `fill` builds; `Canvas.Fill` is proved to build it |
| Canvas.Fill | game.js:233-239 | the loops give a fresh `h`-by-`w` canvas with every cell holding the fill glyph |
| Canvas.DrawLine | game.js:243-245 | the inner loop of `draw` writes one source row into one canvas row from column `x` on, and changes no other cell |
| Canvas.Draw | game.js:241-247 | the nested loops leave the canvas equal to the blit of the buffer at (`x`, `y`) over its old contents |
| Columns.ColumnArt | game.js:126-143 | the unclipped art: caps, `middleHeight` filler rows and base (game.js:175-193 for the bottom column); `ColumnArtShape` states its shape |
| Columns.ColumnArtShape | game.js:126-143 | the unclipped art has 11 + m rows (top) or 12 + m rows (bottom), each 14 cells wide |
| Columns.TopColumn | game.js:126-173 | `topColumn(m, c)` never throws; it has 11 + m rows, each `14 - abs(c)` cells wide, or 0 cells once `abs(c) >= 14` |
| Columns.BottomColumn | game.js:175-223 | `bottomColumn(m, c)` never throws; it has 12 + m rows, each `14 - abs(c)` cells wide, or 0 cells once `abs(c) >= 14` |
| Columns.UnclippedIsArt | game.js:172 | with cutoff 0 the buffer is the art itself |
| Columns.Clip | game.js:146-170 | every row of the art cut by the cutoff, barrier first on a left cut and last on a right cut (game.js:196-220 for the bottom column); `ClippedRows` and `FullyClipped` state the rows |
| Columns.ClippedRows | game.js:146-170 | a row cut on the left is the barrier followed by the art from column `abs(c) + 1`; a row cut on the right is the art's first `13 - c` cells followed by the barrier; the barrier glyph depends on the row's position and on which column it is (game.js:196-220 for the bottom column) |
| Columns.FullyClipped | game.js:148 | with `abs(cutoff) >= 14` every row is empty |
| Columns.BaselineHeights | game.js:225-226 | the baseline heights are 11 and 12 |
| Obstacles.UsableColumnHeight | game.js:275-280 | the usable column height is `height - 35` |
| Obstacles.DespawnsIff | game.js:316 | the despawn test `x < 0 && buf[0].length === 0` holds exactly when `x <= -14` |
| Obstacles.Survivors | game.js:316-319 | the column list after a render loop, the columns that are not spliced out, in order; `SurvivorsAre` states which ones |
| Obstacles.SurvivorsAre | game.js:316-319 | a column survives the render pass exactly when it is listed and has `x > -14`; a list whose columns all have `x > -14` survives whole |
| Obstacles.Spawned | game.js:281-298 | the pairs the spawn loop pushes, one per iteration until the break; `SpawnedAt`, `SpawnedStops` and `SpawnedOpening` state what they are |
| Obstacles.SpawnedAt | game.js:281-298 | every spawned pair shares `x`, which is the previous `x` plus 14 plus that iteration's distance and never passes the width; both fillers are at least 1 row, and the two filler heights plus the gap add up to `usable + 2` |
| Obstacles.SpawnedStops | game.js:285 | the spawn loop stops because the next candidate `x` would pass the width |
| Obstacles.SpawnedOpening | game.js:287-297 | exactly `gap` rows separate a spawned pair's top buffer, drawn at `header.length - 1`, from its bottom buffer, drawn at `height - buf.length - 2` |
| Obstacles.OpeningIsBetweenDrawRows | game.js:321 | a pair's opening is the distance between the end of the top buffer and the row the bottom buffer is drawn at (game.js:341) |
| Obstacles.Cutoff | game.js:307-314 | a column left of the edge is cut by its overhang, one between 0 and `usableWidth` is not cut, and one past `usableWidth` is cut so that its cells end at `x = usableWidth + 15` (game.js:328-333 for the bottom column) |
| Obstacles.SpawnKeepsColumnsOk | game.js:281-298 | spawning keeps the lists equal in length, paired on `x`, strictly increasing in `x`, within the width, and every pair well formed |
| Obstacles.SurvivorsKeepColumnsOk | game.js:305-342 | despawning from both lists keeps that invariant, since paired columns are kept or dropped together |
| Obstacles.KeptLastOk | game.js:305-342 | a surviving last pair lies right of every earlier survivor, so the lists stay well formed |
| Obstacles.Scrolled | game.js:408-409 | every column moved one cell left, keeping the list's length |
| Obstacles.ScrollKeepsColumnsOk | game.js:408-409 | moving every column one cell left keeps that invariant |
| Obstacles.ColumnFits | game.js:321 | a column of a well-formed pair, drawn at `SIDE_PADDING + max(0, x)` on its row (game.js:341 for the bottom column), writes only inside the canvas |
| Obstacles.GateHeights | game.js:287-297 | the columns of a well-formed pair are short enough to fit between the bands |
| Obstacles.GateFits | game.js:321 | both columns of pair j of well-formed lists are drawn inside the canvas |
| Obstacles.SpawnStep | game.js:282-297 | one spawn iteration appends one top and one bottom column at `lastX + 14 + distance`, and the rest of the spawned pairs follow them |
| Obstacles.DrawColumns | game.js:305-342 | the canvas after a render loop: every surviving column's buffer blitted in list order; `DrawColumnsStep` states one iteration |
| Obstacles.DrawColumnsStep | game.js:305-322 | one iteration of a column render loop either keeps and draws column j, or drops it |
| Obstacles.Splice | game.js:317-318 | splicing out the column at the loop's index leaves the visited survivors followed by the rest; stepping past it extends the survivors by that column |
| Body.Round | game.js:351 | `Math.round` as `Floor(y + 0.5)`; `RoundIsNearest` states that this is the nearest integer |
| Body.RoundIsNearest | game.js:351 | `Math.round(y)` is the integer nearest to `y`, with a half rounded up |
| Body.Advanced | game.js:411-417 | the delay line and gravity: every trailing segment takes its predecessor's old height, and the head moves by `vy + 0.3` |
| Body.Tensioned | game.js:422-425 | the tension pass keeps the segment count and the head's height |
| Body.TensionedSnoc | game.js:422-425 | one more tension step appends that segment pulled towards its already updated predecessor |
| Body.TensionedAt | game.js:422-425 | tension keeps the head; every other segment becomes `0.75 y[i] + 0.25 y'[i-1]`, which lies between its old height and its updated predecessor |
| Body.TensionedWithin | game.js:422-425 | tension keeps every segment inside any interval that held them all |
| Body.CollisionRule | game.js:362-363 | the rule `Colliding`: a non-blank glyph strictly between the bands is a hit, a blank never is, a vertical bar always is, and a hit on anything but a bar lies strictly between the bands |
| Body.Stamp | game.js:373 | drawing a segment's glyph keeps the canvas's shape |
| Body.PassFrom | game.js:350-374 | the pass stops on some segment at or after `i`, and it is `Finished` exactly when it examined every segment; it keeps the canvas's shape |
| Body.PassStep | game.js:351-373 | one segment either faults on a row off the canvas, stops on a hit while playing, or is clamped and drawn and the pass goes on |
| Body.Clamped | game.js:354-360 | a height clamped into [top, bottom]; `PassClamps` and `PassFinishedSettles` state where the pass applies it |
| Body.PassClamps | game.js:354-360 | every segment the pass examined ends up clamped into [top, bottom], and every other segment keeps its height |
| Body.PassVelocity | game.js:356-359 | `vy` becomes 0 exactly when the head is clamped, and no other segment changes it |
| Body.PassGameOver | game.js:365-368 | `gameOverAt` is written only by the collision that ends the pass, only when it was unset, and it is set to `now` |
| Body.PassSampledBefore | game.js:362-365 | every segment the pass got past sampled a row inside the canvas without a hit |
| Body.PassStopsOn | game.js:362-370 | a `Fault` stops on a segment whose sample row is off the canvas; a `Collided` stops on a hit, judged on the canvas the pass was given |
| Body.PassDraws | game.js:373 | the pass writes glyph j at (round(y[j]), 32 - j) for each segment it got past, and leaves every other cell as it was |
| Body.PassFinishedSettles | game.js:354-360 | a pass that examines every segment leaves every segment in [top, bottom] |
| Body.PassKeepsSettled | game.js:354-360 | heights already in [top, bottom] come out of a pass unchanged |
| Game.LargestGapDrawable | game.js:275-288 | in every window the model covers, a gap of 20 at offset 0 is in the ranges the model assumes, so those ranges leave out none of the values `randRange(10, 20)` and `randRange(0, usable - gap)` return |
| Game.PlayTop | game.js:347 | the collision pass's top bound is the header's height, 9 |
| Game.PlayBottom | game.js:348 | the bottom bound is `height - 4` |
| Game.BandRowsShape | game.js:100-111 | one band row per piece, each `w` cells wide, when every piece fits |
| Game.HeaderRows | game.js:267 | the header is 9 rows of `width` cells |
| Game.FooterRows | game.js:270 | the footer is 4 rows of `width` cells |
| Game.Background | game.js:265-271 | the blank canvas with both bands drawn is `height` rows of `width` cells |
| Game.GameOverBoxShape | game.js:378-390 | `stringToMatrix` of the game-over template gives its twelve lines back |
| Game.GameOverWidths | game.js:378-390 | the box has twelve lines: eleven of 41 cells and a final one of 3 cells, left over from the template's closing indentation |
| Game.BoxFits | game.js:391-394 | the box's corner is `ceil(w/2) - 21`, `ceil(h/2) - 6`, and the box lies inside every window the model covers |
| Game.HalfRound | game.js:392-393 | `Math.round(n / 2)` of a whole `n >= 0` rounds halves up |
| Game.Scene | game.js:301-343 | the canvas with bands and columns drawn keeps the window's shape |
| Game.RenderOnce | game.js:263-401 | one render keeps the state invariant and leaves a canvas of the window's shape |
| Game.Render | game.js:369-370 | a render whose first pass collides renders once more; either way the result keeps the invariant |
| Game.Moved | game.js:408-417 | the scroll and the physics step keep the state invariant |
| Game.Tick | game.js:405-428 | a tick keeps the state invariant |
| Game.Activate | game.js:436-444 | a press keeps the state invariant |
| Game.RerunNeverCollides | game.js:365-370 | a render never ends in a collision; when its first pass collided, the game was running and is now over at `now` |
| Game.RenderGameOver | game.js:365-368 | one render pass writes `gameOverAt` only on a collision, which needs it unset, and sets it to `now` |
| Game.RenderSettles | game.js:354-360 | a render pass that gets through leaves every segment between the bands |
| Game.RenderKeepsSettled | game.js:354-360 | a render leaves heights that are already between the bands as they are |
| Game.RenderInside | game.js:362 | when every segment rounds to a row of the window, a render pass does not fault |
| Game.TickGameOver | game.js:406 | once the game is over a tick changes nothing; before that, only a collision ends the game, at `now` |
| Game.RenderKeepsOrSetsNow | game.js:368-370 | a render leaves `gameOverAt` as it was or sets it to `now` |
| Game.TickDisplaysSettled | game.js:405-428 | a tick that displays a frame leaves every segment between the bands |
| Game.RenderRerunSettles | game.js:369-370 | a render that gets through, on its first or its second pass, leaves every segment between the bands |
| Game.Initial | game.js:251-259 | `initialState()`: no columns, at rest, not over, ten segments at `Math.round(height / 2)`; `InitialOk` states it |
| Game.InitialOk | game.js:251-259 | the start state has no columns, and all ten segments sit at `Math.round(height / 2)`, between the bands |
| Game.ActivateCases | game.js:436-444 | a press while playing sets `vy = -2.5` and nothing else; a press within 1000 ms of the game ending changes nothing; a later press restarts from the start state, and the restart's render gets through to a frame |
| Game.RestartGetsThrough | game.js:439-440 | the render of the start state never faults, and neither does its rerun |
| Loop.SpawnGates | game.js:281-298 | the `while (true)` loop appends to both lists exactly the pairs `Spawned` describes (pairing, gap accounting and stopping are proved about `Spawned`) |
| Loop.GatesDrawable | game.js:321 | every column of well-formed lists can be drawn inside the canvas |
| Loop.RenderColumn | game.js:306-321 | one column is despawned exactly when it is not kept; a kept column is blitted at its draw position and a despawned one changes nothing |
| Loop.RenderColumns | game.js:305-322 | the loop with its in-place splice leaves the list equal to the survivors, in order, and the canvas equal to every survivor drawn in turn |
| Loop.CheckSegment | game.js:351-373 | one segment's clamp, sample, collision test and glyph write leave the state `PassStep` describes |
| Loop.CheckCollisions | game.js:350-374 | the loop leaves the heights, `vy`, `gameOverAt`, canvas and outcome that `PassFrom` gives |
| Loop.PullTaut | game.js:422-425 | the tension loop leaves the heights `Tensioned` gives |
| Loop.BoxPlacement | game.js:391-394 | the source's centring puts the box at its corner, inside the canvas |
| Loop.DrawBackground | game.js:265-271 | fill, then header and footer, gives the background grid |
| Loop.DrawGameOver | game.js:377-395 | the box is blitted at its corner over the canvas |
| Loop.GameState.constructor | game.js:251-261 | the state `initialState()` builds, which is valid |
| Loop.GameState.Reset | game.js:439 | `Object.assign(state, initialState())` gives the start state with a fresh segment array |
| Loop.GameState.Spawn | game.js:274-299 | the spawn block on the state's lists |
| Loop.GameState.RenderTopColumns | game.js:305-322 | the top list becomes its survivors and the canvas gets them drawn; nothing else changes |
| Loop.GameState.RenderBottomColumns | game.js:325-342 | the bottom list becomes its survivors and the canvas gets them drawn; nothing else changes |
| Loop.GameState.CollisionPass | game.js:346-375 | the collision block on the state's fields gives what `PassFrom` gives |
| Loop.GameState.SpawnAndDraw | game.js:274-343 | spawning then both column loops give the survivors of the grown lists and the scene |
| Loop.GameState.RenderOnce | game.js:263-401 | a render up to its recursive call leaves the state, canvas and outcome `Game.RenderOnce` gives, and keeps the invariant |
| Loop.GameState.Render | game.js:263-401 | `render()`, including the rerun after a collision, leaves the state `Game.Render` gives; the frame text is shown exactly when a pass gets through |
| Loop.GameState.Scroll | game.js:408-409 | every column of both lists moves one cell left |
| Loop.GameState.Advance | game.js:411-417 | segment i takes the old height of segment i - 1, `vy` grows by 0.3, and the head moves by the new `vy` |
| Loop.GameState.ApplyTension | game.js:421-425 | the tension pass on the state's segments |
| Loop.GameState.Move | game.js:408-417 | scroll and physics give the `Game.Moved` state |
| Loop.GameState.Tick | game.js:405-428 | `tick()` leaves the state and outcome `Game.Tick` gives, and keeps the invariant |
| Loop.GameState.OnActivate | game.js:436-444 | `onActivate()` leaves the state and press outcome `Game.Activate` gives |

## Left out

- `measureWindow` and the resize listener (game.js:4-19, 434): the window size is fixed per `GameState`. The model covers windows at least 41 cells wide, so the game-over box fits, and at least 55 rows high, so that the usable column height `height - 35` is at least the largest gap, 20, and the gap draw `randRange(0, usable - gap)` always has a range. In a lower window `game.js` can draw a gap larger than the usable height, and then the offset draw `Math.floor(Math.random() * (usable - gap + 1))` is 0 or negative. At 53 and 54 rows the gap exceeds the usable height by at most 2, so a filler comes out 0 rows high and the game goes on; the one exception is a 53-row window where `Math.random()` returns exactly 0 with a gap of 20, which gives a bottom filler of -1. At 52 rows or fewer a gap can exceed the usable height by 3 or more; a middle height then comes out negative, and `new Array` throws in `topColumn` or `bottomColumn` (game.js:135, 183) on that and every later render. None of this is modelled.
- `setInterval`, the first `render()` when the script loads, and the key and pointer listeners (game.js:430-432, 446-452): the caller invokes `Tick` and `OnActivate` directly.
- `randRange` and `Math.random` (game.js:229-231): the draws are an `Rng` parameter, with preconditions for the ranges [25, 50], [10, 20] and [0, usable - gap], which in the windows covered are exactly the values `randRange` returns (`Game.LargestGapDrawable`). Each render call gets its own `Rng`, including a rerun and the two renders of a tick.
- `Date.now()`: a parameter `now`. `console.log` (game.js:367) is not part of this model.
- The style writes and the `innerText` write (game.js:397-400): a render returns the serialised frame instead. A tick returns the frame its second render wrote. When a render of the tick throws, the tick returns `Aborted` without a frame, although the page then still shows the frame an earlier render wrote.
- Floating point: heights and velocities are exact reals, so 0.3, 0.25 and -2.5 are not rounded.
- `gameOverAt` is an `Option<int>`. In JavaScript a timestamp of 0 would read as unset. `Date.now()` is never 0 in practice, so the model treats any recorded time as set.
- Writes outside the canvas: the source's `draw` would throw or grow a row. `Canvas.Draw` requires every write to lie inside the canvas, and the callers prove it.
- Reading a canvas row that does not exist throws a `TypeError` in the collision loop. The model turns this into the `Fault` outcome, and a tick that meets it stops there.
- The recursive `render()` after a collision (game.js:369) is modelled as exactly one more pass with its own draws. The model proves that this pass cannot collide again, so the recursion never goes deeper.
- `Text.RepeatTrunc`: requires a non-empty fill when the width is positive. JavaScript would append the text "undefined" instead, and every fill in the two bands is non-empty.
- `Obstacles.Column.middleHeight` is a `nat`. In the windows the model covers, every draw `randRange` can make gives both filler heights at least 1.
- The literal art is constant data: the column art, the bands and the game-over box. Only row counts, widths and the barrier glyphs are proved about it.
