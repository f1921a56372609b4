# Snake game board — a Dafny model

This project models the tick-driven core of a grid snake game, the `GameBoard`
class (`Snake/snake/GameBoard.java`). The board owns a snake, one food cell, a
score, the pending direction `movement` and the last executed direction
`lastMove`. It enforces four rules:

- **Turn rule.** The four turn requests refuse a 180-degree reversal of
  `lastMove` unless the snake has a single segment.
- **Tick.** One tick moves the snake in the pending direction. Self-collision
  ends the game. So does a head outside `[0, columns) x [0, rows)`. A head on
  the food grows the snake, adds 10 to the score and spawns new food.
- **Food placement.** New food is retried until it lies on the grid and off the
  snake.
- **Text snapshot.** `toString` draws the board as rows of `S`, `F` and `-`
  tokens.

Files and modules:

- `geometry.dfy`, module `Geometry`: the `Cell` pair with structural equality,
  the four directions, `Opposite`, `Step` and the bounds predicate `InBounds`.
- `snake_body.dfy`, module `SnakeBody`: the contract of the snake. The `Snake`
  class itself is not part of this model. Here it is a non-empty `seq<Cell>`,
  head first, plus a count of owed growth. A move pushes the new head and drops
  the tail unless growth is owed. It reports failure when the new head lands on
  a kept cell. `grow` adds one owed cell.
- `rules.dfy`, module `Rules`: the board as a value (`State`) and its
  transitions. `Turn` is a turn request. Each stage of a tick is its own
  function: `AfterMove`, `AfterBounds`, `AfterFood`, `AfterGrow`, `AfterSpawn`,
  `Directed` (one `moveSnakeX`) and `Tick` (`update`/`moveSnake`). `Spawn` is
  the food retry. `Resting` and `Inv` are the board invariants. `Run` folds a
  sequence of ticks and turn requests. The lemmas prove the board properties.
- `board_text.dfy`, module `BoardText`: the text snapshot as a function
  (`Render`), with its layout proved cell by cell.
- `game_board.dfy`, module `Game`: the `GameBoard` class. It has the
  source's fields `food`, `snake`, `score`, `movement` and `lastMove`. The
  constants `columns` and `rows` replace the `properties` singleton. Two
  fields are new: `draws`, the random draws not used yet, and `status`, which
  records game over. Its methods mirror the source's methods. Each
  state-changing method ensures `Snapshot() == F(old(Snapshot()))` for the
  matching rule `F`, so the `Rules` lemmas describe the object. For `Exit`,
  `F` sets the status to game over with the current score. `ToString`
  builds the text with the source's nested loops and is proved equal to
  `Render`.
- `scenarios.dfy`, module `Scenarios`: concrete ticks on small boards.

Modelling decisions:

- `System.exit` becomes the terminal status `GameOver(reason, finalScore)`.
  The reasons are `SelfCollision`, `OutOfBounds` and `FoodNotPlaced`. Once the
  game is over, ticks and turn requests change nothing. In the methods, every
  call to `Exit` is followed by a return, because in the source `exit` never
  returns.
- The random draws of `newFood` are an injected sequence `draws` of candidate
  cells, consumed by the retry loop. A draw off the grid or on the snake is
  skipped. When the draws run out without a free cell, the game ends with
  `FoodNotPlaced`. This is always the case on a full board
  (`FullBoardExhausts`, `FullBoardScenario`). There the source's `newFood`
  (`GameBoard.java:57-59`) recurses without end until the stack overflows,
  which throws out of `update()` after `growSnake` has already added 10. On a
  1 by 1 board the start cell is the only cell, so the first `newFood()` in
  the constructor (`GameBoard.java:33`) already recurses without end, before
  any growth. The model ends that board with `FoodNotPlaced` at score 0.
- The board size comes from the constructor parameters `columns` and `rows`
  (both positive) instead of the configuration singleton. The starting cell
  of the snake is also a parameter.
- The constructor does what the source's does: spawn food, then run one
  tick (`GameBoard.java:30-36`).
- Directions move in screen coordinates: `Up` decreases y, `Down` increases
  y, `Left` decreases x, `Right` increases x. The snake's own code is not part
  of this model, so this convention is assumed.
- The board keeps both `movement` and `lastMove` and checks turns against
  `lastMove`, as `GameBoard.java:65-96` and `GameBoard.java:113` do.
- The `Snake` class is not shown, so the model owes growth until the next
  move. Right after eating, the body keeps its length and one owed cell is
  recorded. After the next move the body is one cell longer. One visible
  effect: right after a one-cell snake eats, its size is still 1, so the
  size-1 exemption of the turn guard (`GameBoard.java:66-95`) still lets it
  reverse on the next tick. A `Snake` whose size counted the owed cell would
  refuse that reversal.

## Model

| member | source | states |
|---|---|---|
| Geometry.Opposite | Snake/snake/GameBoard.java:65-96 | the direction a turn request may not reverse into is never the requested direction itself |
| Geometry.Step | Snake/snake/GameBoard.java:103-111 | a move goes to a different cell, adjacent in exactly one coordinate |
| Geometry.OppositeInvolution | Snake/snake/GameBoard.java:65-96 | the opposite pairs are symmetric: D reverses the last move iff the last move reverses D |
| SnakeBody.MoveOkMeansHeadIsAlone | Snake/snake/GameBoard.java:116-119 | a move reports success iff, after the shift, the head coincides with no other segment |
| SnakeBody.SingleSegmentNeverCollides | Snake/snake/GameBoard.java:8-11 | a one-segment snake never runs into itself, which justifies letting it reverse |
| SnakeBody.FollowingTheTail | Snake/snake/GameBoard.java:116-150 | the head may enter the cell the tail vacates in the same move, but not while growth is owed |
| SnakeBody.AdvanceKeepsDistinct | Snake/snake/GameBoard.java:116-119 | a successful move keeps the body free of repeated cells |
| SnakeBody.AdvanceCells | Snake/snake/GameBoard.java:116-150 | a cell is on the moved body iff it is the new head or a kept cell, and kept cells were on the body before |
| SnakeBody.GrowThenMove | Snake/snake/GameBoard.java:191-194 | one grow before a move makes the moved body exactly one cell longer than without it; without it the length is unchanged |
| SnakeBody.Snake.constructor | Snake/snake/GameBoard.java:31 | a fresh snake is the single start cell with no owed growth |
| SnakeBody.Snake.Grow | Snake/snake/GameBoard.java:192 | grow leaves the cells as they are and owes one more cell |
| SnakeBody.Snake.Move | Snake/snake/GameBoard.java:117 | the move updates the body to Advance and returns false exactly on self-collision |
| Rules.Spawn | Snake/snake/GameBoard.java:48-60 | the food is placed on the first draw that is on the grid and off the snake, every earlier draw being rejected; it fails iff no draw is such a cell |
| Rules.FullBoardExhausts | Snake/snake/GameBoard.java:57-59 | on a board the snake fills, every draw is rejected, so the retry cannot succeed |
| Rules.Tick | Snake/snake/GameBoard.java:101-114 | a tick never shortens the snake, never lowers the score and leaves the grid size alone |
| Rules.TurnRule | Snake/snake/GameBoard.java:65-96 | a one-segment snake turns anywhere; a longer one ignores a reversal of the last move; any other request sets the pending direction |
| Rules.TurnFrame | Snake/snake/GameBoard.java:65-96 | a turn request changes only the pending direction, repeating it has no further effect, and the last accepted request before a tick wins |
| Rules.TurnKeepsInv | Snake/snake/GameBoard.java:65-96 | turn requests preserve the board invariant |
| Rules.TickSelfCollision | Snake/snake/GameBoard.java:116-119 | on self-collision the game ends before the bounds and food checks; score, food, draws and directions are unchanged |
| Rules.TickBounds | Snake/snake/GameBoard.java:152-165 | after a successful move the game ends for leaving the grid iff the head has x < 0, x >= columns, y < 0 or y >= rows |
| Rules.TickSurvived | Snake/snake/GameBoard.java:101-114 | if the game survives a tick, the latched direction was executed, lastMove records it, movement equals lastMove, and the head is on the grid |
| Rules.TickEats | Snake/snake/GameBoard.java:167-172 | an in-bounds head on the food adds exactly 10 to the score and one owed cell, and the new food is on the grid and off the snake unless no draw was free |
| Rules.TickDoesNotEat | Snake/snake/GameBoard.java:167-172 | without food under the head, score, food and draws are unchanged and no growth is added |
| Rules.TickAfterGameOver | Snake/snake/GameBoard.java:178-181 | once the game is over a tick changes nothing |
| Rules.TickKeepsInv | Snake/snake/GameBoard.java:101-194 | a tick keeps the score a non-negative multiple of 10, keeps the food on the grid and off a body with no repeated cell, and leaves a running head on the grid |
| Rules.InitialInv | Snake/snake/GameBoard.java:30-36 | the board right after construction satisfies the invariant |
| Rules.Apply | Snake/snake/GameBoard.java:41-96 | the snake stays non-empty under ticks and turn requests |
| Rules.RunKeepsInv | Snake/snake/GameBoard.java:17 | along every run from a board satisfying the invariant (`InitialInv`: the constructor establishes it, with score 0, or 10 when its first tick eats) the score never decreases and is a non-negative multiple of 10, and the invariant holds |
| Rules.RunAfterGameOver | Snake/snake/GameBoard.java:178-181 | after game over no sequence of ticks and turn requests changes the board |
| BoardText.RenderLine | Snake/snake/GameBoard.java:237-250 | n cells of a row take 2n characters |
| BoardText.RenderRows | Snake/snake/GameBoard.java:236-252 | k rows take k * (2 * columns + 1) characters |
| BoardText.LineAt | Snake/snake/GameBoard.java:238-248 | token x of a row is the cell's character followed by a blank |
| BoardText.RenderAt | Snake/snake/GameBoard.java:232-255 | the snapshot has rows lines of 2 * columns + 1 characters; at cell (x, y) stands 'S' if the snake holds it, else 'F' on the food, else '-', then a blank, and each line ends in a newline |
| Game.GameBoard.constructor | Snake/snake/GameBoard.java:30-36 | the new board is Initial: food spawned, then one tick, with the invariant established |
| Game.GameBoard.Update | Snake/snake/GameBoard.java:41-43 | update performs Tick on the board and re-establishes the invariant |
| Game.GameBoard.Exit | Snake/snake/GameBoard.java:178-181 | exit records game over with the current score as final score and changes nothing else on the board |
| Game.GameBoard.NewFood | Snake/snake/GameBoard.java:48-60 | the retry loop performs Spawn: food and draws as Spawn places them, or game over when no draw is free |
| Game.GameBoard.RequestTurn | Snake/snake/GameBoard.java:65-96 | a turn request performs Turn and changes no field but movement |
| Game.GameBoard.DirectionLeft | Snake/snake/GameBoard.java:65-69 | performs Turn to Left, changing only movement |
| Game.GameBoard.DirectionRight | Snake/snake/GameBoard.java:74-78 | performs Turn to Right, changing only movement |
| Game.GameBoard.DirectionUp | Snake/snake/GameBoard.java:83-87 | performs Turn to Up, changing only movement |
| Game.GameBoard.DirectionDown | Snake/snake/GameBoard.java:92-96 | performs Turn to Down, changing only movement |
| Game.GameBoard.MoveSnake | Snake/snake/GameBoard.java:101-114 | executes the latched direction and records it as lastMove when the game goes on (Tick) |
| Game.GameBoard.MoveSnakeIn | Snake/snake/GameBoard.java:116-150 | one moveSnakeX: move, stop on self-collision, bounds check, food check, then re-latch the direction (Directed) |
| Game.GameBoard.CheckBounds | Snake/snake/GameBoard.java:152-165 | ends the game when the head is off the grid, and only then (AfterBounds) |
| Game.GameBoard.IsSnakeOnFood | Snake/snake/GameBoard.java:187-189 | true when the snake's head is the food cell, and then the food lies on the body; its effect on a tick is given by CheckIfAteFood (AfterFood), TickEats and TickDoesNotEat |
| Game.GameBoard.CheckIfAteFood | Snake/snake/GameBoard.java:167-172 | grows and respawns food exactly when the head is on the food (AfterFood) |
| Game.GameBoard.GrowSnake | Snake/snake/GameBoard.java:191-194 | owes one more cell and adds 10 to the score, nothing else (AfterGrow) |
| Game.GameBoard.GetScore | Snake/snake/GameBoard.java:183-185 | the score of a valid board is a non-negative multiple of 10 |
| Game.GameBoard.ToString | Snake/snake/GameBoard.java:231-255 | the nested loops produce exactly Render of the snake, the food and the grid size |
| Scenarios.EatingScenario | Snake/snake/GameBoard.java:167-172 | a one-cell snake at (5,5) moving down onto food at (5,6) scores 10, owes one cell, and the food moves to the first free draw |
| Scenarios.LeavingTheGridScenario | Snake/snake/GameBoard.java:152-165 | the body (0,5),(1,5) moving left ends the game out of bounds with score 0 |
| Scenarios.SelfCollisionScenario | Snake/snake/GameBoard.java:116-119 | a five-cell body that last moved up may turn right, and the next tick runs its head into its fourth segment (3,2), ending the game by self-collision |
| Scenarios.FullBoardScenario | Snake/snake/GameBoard.java:48-60 | eating the last free cell of a 2 by 1 board fills it and ends the game with FoodNotPlaced |
| Scenarios.FirstTickEatsScenario | Snake/snake/GameBoard.java:30-36 | when the first food lands below the start cell, the constructor's tick eats it, and the board it returns satisfies the invariant with score 10 |
| Scenarios.OneCellBoardScenario | Snake/snake/GameBoard.java:33 | on a 1 by 1 board the constructor's first food spawn finds no free cell, and the game ends with FoodNotPlaced at score 0 |

## Left out

- `paint`, `paintSnake`, `paintFood` (`GameBoard.java:196-229`): AWT rendering and colours, not game logic.
- The console output and process termination in `exit` (`GameBoard.java:178-181`): replaced by the terminal `GameOver` status recording the final score.
- `java.util.Random` in `newFood`: replaced by the injected sequence `draws`. The model's loop is bounded by its length, and running out is a terminal `FoodNotPlaced`. The model does not capture uniformity or the fact that a random source, unlike a sequence, never runs out.
- The `Properties` singleton (`GameBoard.java:32`): board size is a constructor parameter; square size and colours only matter for rendering.
- `Snake/test/PropertiesTest.java`: it tests the configuration singleton and its themes, not the game logic.
- The `Snake` and `Square` classes are not part of this model. Only the contract the board relies on is modelled: head, contains, size, grow and the move that reports self-collision. The four `moveLeft/Right/Up/Down` are one `Move(d)`. `Square` is the value `Cell`. Iterating the snake's segments is only used by rendering and is not modelled. `getSnakeSize` is `Snake.Size`.
- The four `moveSnakeLeft/Right/Up/Down` (`GameBoard.java:116-150`) differ only in direction and are one method, `MoveSnakeIn(d)`. The if-chain in `moveSnake` (`GameBoard.java:103-111`) becomes a call with the latched direction.
- Thread interleaving between the input handlers and the timer that drives `update`: the model treats calls as happening in sequence.
- Java's 32-bit `int`: the score and the coordinates are unbounded integers. Wrap-around cannot happen on any real board, because the score is 10 times the number of foods eaten and the head never strays more than one cell off the grid.
