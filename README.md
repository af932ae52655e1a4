# Snake game state machine in Dafny

A model of the game logic of a browser Snake game (`game.js`). A snake of
cells moves on a `tileCount` by `tileCount` grid and eats food to grow and
score. The game ends when the snake hits a wall or its own body. All state
lives in a handful of mutable variables. Four kinds of operation drive them:

- start or restart a game;
- one tick of the game loop;
- placing the food by rejection sampling;
- direction changes from the arrow keys and the on-screen buttons.

Files:

- `board.dfy`, module `Board`. Holds cells and the bounds test, the
  self-collision scan and the food-on-snake scan (both loops), and the
  rejection-sampling loop. It also holds the lemmas showing that a move keeps
  the segments pairwise distinct.
- `game.dfy`, module `SnakeGame`. Holds the reversal guard `Steer`, the
  speed-boost count, and the class `Game`. The class has the game's variables
  as fields and its operations as methods. `Game.Valid()` is the invariant
  every operation keeps:
  - the snake is non-empty, on the board and pairwise distinct;
  - the food is on the board, and off the snake while a game runs;
  - the velocity is a unit step, or `(0,0)` before the first game;
  - the timer is scheduled exactly while the game runs;
  - the speed equals the speed at game start plus one half per five points.
- `scenarios.dfy`, module `Scenarios`. Holds concrete games played through
  the contracts alone: start, a plain step, eating, a wall hit, a refused
  reversal, a restart, and the speed boost at score 5.

Modelling choices:

- `Math.random()` becomes a caller-supplied sequence `draws` of cells on the
  board. The sampler takes the draws in order and keeps the first one that
  misses the snake. Callers must supply a draw that misses the snake,
  because the source's `do…while` never ends on a full board.
- The floating-point `speed = 7 + 0.5·k` is the integer `speedHalves = 14 + k`.
- `setInterval`/`clearInterval` become the flag `loopActive`.
- The board size is a constructor parameter with `tileCount > 10`, because
  the start cell `(10,10)` is hard-coded.
- The food chosen at load time (game.js:32-35) is a constructor parameter.

Behaviour of the code that the model keeps on purpose:

- A restart does not reset the speed (game.js:44-61), so speed carries over
  from one game to the next.
- The self-collision scan skips index 0 but includes the tail
  (game.js:77-78). Stepping into the cell the tail is about to leave
  therefore ends the game. `SkippingHeadIsHarmless` shows that skipping the
  head changes nothing, because the head always moves.
- The reversal guard compares with the velocity of the moment only. Two
  requests between two ticks can therefore turn the snake around
  (`TwoTurnsMayReverse`).

## Model

| member | source | states |
|---|---|---|
| `Board.HitsOwnBody` | game.js:76-82 | the scan reports a hit exactly when the new head equals a segment at index 1 or later, the tail included |
| `Board.IsOnSnake` | game.js:167-173 | the inner scan of the sampler reports exactly whether the cell is one of the segments |
| `Board.FindFreeCell` | game.js:160-176 | the sampler returns the first draw that is not on the snake; every draw before it was on the snake |
| `Board.FirstFreeUnique` | game.js:160-176 | the food the sampler settles on is determined by the draws: at most one cell is the first free draw |
| `Board.SlideKeepsDistinct` | game.js:77-101 | pushing a head that is neither the old head nor any later segment, then dropping the tail, keeps all segments distinct |
| `Board.GrowKeepsDistinct` | game.js:84-91 | pushing a head that is on no segment, without dropping the tail, keeps all segments distinct |
| `SnakeGame.Steer` | game.js:214-240 | a direction request yields the requested velocity or keeps the current one; it never yields the negation of a non-zero velocity; for a unit velocity it is refused exactly when it is the reversal |
| `SnakeGame.TwoTurnsMayReverse` | game.js:214-240 | Up then Left, from heading right, leaves the snake heading left: a net reversal between two ticks |
| `SnakeGame.SkippingHeadIsHarmless` | game.js:77-78 | with a unit velocity, comparing the new head with segments 1 onwards finds a hit exactly when the head is anywhere on the snake |
| `SnakeGame.BoostsIsFifth` | game.js:92-97 | the per-food test `score % 5 == 0`, applied once per point, gives `score / 5` boosts |
| `SnakeGame.Game.constructor` | game.js:14-35 | before any game: snake `[(10,10)]`, velocity `(0,0)`, score 0, speed 7, not running, no timer |
| `SnakeGame.Game.GenerateFood` | game.js:155-177 | the food becomes the first draw that misses the snake, on the board and off the snake; nothing else changes |
| `SnakeGame.Game.StartGame` | game.js:44-61 | a (re)start sets snake `[(10,10)]`, velocity `(1,0)`, score 0, running, timer on, and food off the snake; the speed is kept |
| `SnakeGame.Game.GameOver` | game.js:180-183 | stops the game and the timer and keeps snake, food, score, velocity and speed |
| `SnakeGame.Game.UpdateGame` | game.js:64-105 | when not running, nothing changes. On a wall or self hit, the game stops with snake, food, score and speed kept. On a plain move, the snake becomes new head plus old snake minus tail, with score, food and speed kept. On food, the snake gains the new head, the score rises by 1, the food is re-placed off the snake, and the speed rises by one half exactly when the new score is a multiple of 5. The invariant (distinct, on board, food off snake) is kept throughout |
| `SnakeGame.Game.Turn` | game.js:247-273 | a button press steers through the guard only while running, never to the negation of the velocity before the call; otherwise nothing changes |
| `SnakeGame.Game.KeyDown` | game.js:199-241 | Space starts a game when none runs; arrows steer through the same guard as the buttons, and only while running; any other key, or Space during a game, changes nothing |

## Left out

- Drawing: `drawGame`, `drawGrid` and the overlay text of `gameOver`
  (game.js:108-152, 185-195) only paint the canvas.
- DOM wiring: element lookups, `textContent` updates, `addEventListener` and
  `preventDefault` (game.js:3-12, 46, 53, 90, 183, 199-203, 244) are
  input/output plumbing.
- Timing: the interval `1000 / speed` and the wall-clock scheduling of
  `setInterval` (game.js:57-60, 95-96, 182). The model keeps only whether a
  timer is scheduled (`loopActive`), and `UpdateGame` is called by the client.
- Randomness: `Math.random` and the `Math.floor` scaling (game.js:33-34,
  163-164) become caller-supplied draws on the board.
- `SnakeGame.Game.StartGame`, `SnakeGame.Game.UpdateGame` and
  `SnakeGame.Game.KeyDown` require a free cell among the draws whenever food
  must be placed. On a full board the source loops forever, and the model does
  not describe that non-termination.
- `SnakeGame.Game.constructor` requires an integer `tileCount > 10`. A canvas
  width that is not a multiple of 20 gives a fractional `tileCount` in the
  source, and a board of 10 tiles or fewer puts the start cell off the board.
  Neither is modelled.
