# Snake game state machine in Dafny

A model of the game logic of a browser snake game (`game.js`). The game keeps
its state in global variables: `score`, `highScore`, `snake` (an array of
cells, head first), `food`, `direction`, `isGameOver` and `isPaused`. A timer
calls `update` every 150 ms. Key presses and buttons call `changeDirection`
and `togglePause`, and `startGame` resets everything except the high score.

The project has these files:

- `geometry.dfy` (module `Geometry`): cells and the board. The board is the
  canvas size and the cell size (`gridSize`). It holds the layout
  `initCanvas` computes, the real-division bounds test that `update` applies,
  and the cell that one `Math.floor(Math.random() * (size / gridSize))` pair
  lands on.
- `directions.dfy` (module `Directions`): the four directions, their axes,
  and one step in each direction (the `switch` in `update`).
- `rules.dfy` (module `Rules`): the state machine as values. It has a
  `State` datatype for the globals and one function per operation, giving
  the state that operation leaves. `generateFood` is a recursive function
  over the sequence of random draws.
- `invariants.dfy` (module `Invariants`): the game invariant and the lemmas
  about ticks. The invariant says the snake has at least one cell, no
  repeated cells, every cell on the board, and consecutive cells adjacent;
  the food is on the board and off the snake; and the score is 10 points
  per cell grown.
- `game.dfy` (module `SnakeGame`): class `Game`, with the globals as fields
  and one method per function of `game.js`. Each method updates the fields
  in place. Its `ensures` ties the new `State()` to the matching `Rules`
  function of the old state, and says the invariant `Valid()` is kept.
  `GenerateFood` keeps the source's retry `while` loop.
- `scenarios.dfy` (module `Scenarios`): concrete runs on the 20-by-20 board
  of a 400-pixel display.

`Math.random` is a parameter. A `Draw` is the pair of values in `[0, 1)` that
one placement attempt uses, and an operation that may place food takes the
sequence of draws it will use. The retry loop ends only when some draw lands
on a free cell. Every operation that places food therefore requires that the
draws contain such a cell (`HasFreeDraw`).

In `game.js`, a tick that eats when the grown snake covers every cell never
ends: no free cell is left, so the retry `while` (game.js:76-81) loops
forever and the page hangs. `Rules.CanFeed` excludes exactly that tick.

The bounds test compares a coordinate with `canvas.width / gridSize` as a
real number. So when the canvas size is not a multiple of the cell size, a
partial last column and row are playable, and the grid has
`ceil(size / gridSize)` columns and rows (`Geometry.InBoardIffBelowColumns`).

The snake grows by one cell per food eaten: a new game with food five cells
ahead has, after five ticks, a two-cell snake and score 10
(`Scenarios.FiveTicksEatOnce`).

## Model

| member | source | states |
|---|---|---|
| Geometry.Layout | game.js:13-19 | for a display of at least 20 px the board is square, its cell size is positive, and it has at least 20 columns and 20 rows |
| Geometry.OutOfBounds | game.js:95-96 | the bounds test of `update`, with real division: it rejects exactly the cells whose square does not start inside the canvas (`x * gridSize < width`) |
| Geometry.InBoardIffBelowColumns | game.js:95-96 | a cell is on the board iff `0 <= x < ceil(width / gridSize)` and likewise for `y` |
| Geometry.Scaled | game.js:73-74 | `Math.floor(r * (size / gridSize))` for `0 <= r < 1` is at least 0 and passes the bounds test |
| Geometry.Pick | game.js:72-75 | every cell a placement attempt picks is on the board and passes the bounds test of `update` |
| Directions.AxisOf | game.js:42-47 | the axis of each direction, as in the direction table: a step along `x` keeps `y` and changes `x`, and a step along `y` the reverse |
| Directions.Step | game.js:88-93 | one step changes only the coordinate of the direction's axis and moves to an adjacent cell |
| Directions.Reverse | game.js:42-47 | the reverse of a direction is the other direction on the same axis, and stepping there undoes a step |
| Rules.GenerateFood | game.js:71-82 | the food placed is on the board and not on any snake segment |
| Rules.GenerateFoodIsFirstFree | game.js:76-81 | the food is the pick of the first attempt that misses the snake |
| Rules.TogglePause | game.js:36-37 | the pause flag flips and nothing else changes |
| Rules.TogglePauseTwice | game.js:36-37 | toggling twice restores the state |
| Rules.Accepts | game.js:49 | the acceptance test of `changeDirection`: a one-cell snake accepts every request; a request on the other axis is always accepted; for a longer snake an accepted request is never the reverse of the committed direction |
| Rules.ChangeDirection | game.js:41-52 | a request on the other axis is always taken, any request is taken by a one-cell snake, and otherwise the state is unchanged, so a longer snake never gets the reverse of its committed direction from one request; nothing but the direction changes |
| Rules.GameOver | game.js:168-176 | the game is over; the high score becomes the maximum of score and high score, and it changes iff the score is strictly greater |
| Rules.StartGame | game.js:54-65 | one-cell snake at (10,10), heading right, score 0, both flags clear, high score kept, food on the board and off the snake |
| Rules.NextHead | game.js:87-93 | the candidate head is a neighbour of the current head, so every tick moves |
| Rules.Dies | game.js:95-97 | the death test of a tick holds iff the candidate head is off the board or on any cell of the pre-move body; in particular moving onto the current tail cell dies |
| Rules.Update | game.js:84-113 | a frozen game (over or paused) is unchanged; the score rises by 0 or 10 and by 10 exactly when the snake grows by one; the high score changes iff a live tick ends the game with the score strictly above the high score, and then it becomes the score |
| Invariants.LayoutHoldsStartCell | game.js:13-19 | the start cell lies on every board the layout produces |
| Invariants.StartGameEstablishes | game.js:54-65 | a new game satisfies the invariant |
| Invariants.UpdatePreserves | game.js:95-110 | every tick keeps the invariant: distinct cells, on the board, connected, at least one cell, food off the snake, score 10 per cell grown |
| Invariants.ControlsPreserve | game.js:36-52 | changing direction, pausing and game over keep the invariant |
| Invariants.UpdateMoves | game.js:102-110 | a live tick that survives puts the stepped head in front; on the food the old body stays whole, the score rises by 10 and new food is off the snake; otherwise the last cell goes and score and food stay |
| Invariants.UpdateEndsGame | game.js:95-100 | a live tick ends the game iff the candidate head is off the board or on the pre-move body; that tick's result is exactly `gameOver` of the old state, so snake, food and score stay and a beaten high score is raised |
| Invariants.GrowsIffEats | game.js:102-110 | the snake grows by one cell, and the score by 10, exactly on ticks whose head lands on the food |
| Invariants.ChasingTheTailEndsGame | game.js:97 | moving onto the current tail cell ends the game, although the tail would have moved away |
| Invariants.ReversalByTwoRequests | game.js:49-51 | a turn followed by the reverse of the last move is accepted between two ticks, and the next tick ends the game on the second segment |
| Scenarios.FiveTicksEatOnce | game.js:84-113 | from a new game with food at (15,10), five ticks leave the snake [(15,10),(14,10)] with score 10 and the next food placed |
| Scenarios.SingleCellMayReverse | game.js:49-51 | a one-cell snake heading right takes a request for left |
| Scenarios.LeavingTheLeftEdge | game.js:95-100 | moving left from x = 0 ends the game, keeps score and snake, and raises a beaten high score |
| SnakeGame.Game.constructor | game.js:194-197 | page load: high score from storage, board from the layout, first game started, invariant holds |
| SnakeGame.Game.TogglePause | game.js:36-39 | the fields change as `Rules.TogglePause` says; the invariant is kept |
| SnakeGame.Game.ChangeDirection | game.js:41-52 | the fields change as `Rules.ChangeDirection` says; the invariant is kept |
| SnakeGame.Game.StartGame | game.js:54-69 | the fields become `Rules.StartGame` of the old high score; the invariant holds |
| SnakeGame.Game.GenerateFood | game.js:71-82 | the retry loop ends with the food `Rules.GenerateFood` gives: on the board and off the snake |
| SnakeGame.Game.GameOver | game.js:168-180 | the fields change as `Rules.GameOver` says; the invariant is kept |
| SnakeGame.Game.Update | game.js:84-113 | the in-place `unshift`/`pop` tick leaves the fields as `Rules.Update` says and keeps the invariant |

## Left out

- `draw` (game.js:115-166): canvas rendering with pixel arithmetic and arcs; it does not change the state.
- The DOM part of `initCanvas`: measuring the display and taking the smaller side is a parameter `size` of the constructor.
- Resizing the window mid-game: the board is a constant of a `Game`. The source recomputes `gridSize` on resize without touching the snake.
- `setupControls` and the keydown listener: they only map buttons and arrow keys to `changeDirection` and `togglePause`. The methods are modelled directly.
- `setInterval`/`clearInterval`: a tick is a call of `Game.Update`; the 150 ms timer and its cancellation are not modelled.
- `localStorage`: the stored high score is a constructor parameter. The source keeps it as a string, which `>` converts to a number; the model treats it as an integer.
- Text and style updates of page elements (score, high score, pause button, game-over panel): output only.
- `Math.random` itself: its values are supplied as draws in `[0, 1)`, and floating-point rounding of the product and the division is not modelled (real arithmetic is used).
- A board below 20 pixels, where `gridSize` is 0 and the bounds test divides by zero: the layout requires at least 20 pixels.
