/** The board object: it owns the snake, the food, the score and the two
    direction fields, and updates them in place once per tick. Each method is
    tied to the value-level rule it performs (module Rules), so the lemmas
    proved there describe the object. */
module Game {
  import opened Geometry
  import opened SnakeBody
  import opened Rules
  import opened BoardText

  class GameBoard {
    const columns: int
    const rows: int
    const snake: Snake
    var food: Cell
    var score: int
    /** The pending direction, latched by turn requests. */
    var movement: Direction
    /** The direction executed by the last tick, read by the turn guard. */
    var lastMove: Direction
    /** The random food draws not used yet. */
    var draws: seq<Cell>
    var status: Status

    /** The board as a value. */
    ghost function Snapshot(): State
      reads this, snake
    {
      State(columns, rows, snake.cells, snake.pending, movement, lastMove, score, food, draws, status)
    }

    ghost predicate Valid()
      reads this, snake
    {
      Inv(Snapshot())
    }

    /** A board of `columns` by `rows` squares with a one-cell snake at
        `start` heading down; food is spawned from `draws` and one tick runs. */
    constructor (columns: int, rows: int, start: Cell, draws: seq<Cell>)
      requires columns > 0 && rows > 0
      ensures Valid() && fresh(snake)
      ensures Snapshot() == Initial(columns, rows, start, draws)
    {
      this.columns := columns;
      this.rows := rows;
      snake := new Snake(start);
      food := start;
      score := 0;
      movement := Down;
      lastMove := Down;
      this.draws := draws;
      status := Running;
      new;
      NewFood();
      InitialInv(columns, rows, start, draws);
      Update();
    }

    /** Advance one tick; a no-op once the game is over. */
    method Update()
      requires Resting(Snapshot())
      modifies this, snake
      ensures Valid()
      ensures Snapshot() == Tick(old(Snapshot()))
    {
      ghost var s := Snapshot();
      if status.Running? {
        MoveSnake();
      }
      TickKeepsInv(s);
    }

    /** Record the end of the game with its final score. */
    method Exit(reason: Ending)
      modifies this`status
      ensures Snapshot() == old(Snapshot()).(status := GameOver(reason, score))
    {
      status := GameOver(reason, score);
    }

    /** Spawn food: skip the draws that are off the board or on the snake;
        when none is left the game ends. */
    method NewFood()
      requires snake.Valid()
      modifies this`food, this`draws, this`status
      ensures Snapshot() == AfterSpawn(old(Snapshot()))
    {
      ghost var s0 := Snapshot();
      ghost var cells := snake.cells;
      ghost var outcome := Spawn(cells, draws, columns, rows);
      while |draws| > 0 && !(InBounds(draws[0], columns, rows) && !snake.Contains(draws[0]))
        invariant Snapshot() == s0.(draws := draws)
        invariant Spawn(cells, draws, columns, rows) == outcome
        decreases |draws|
      {
        draws := draws[1..];
      }
      if |draws| > 0 {
        assert outcome == Placed(draws[0], draws[1..]);
        food := draws[0];
        draws := draws[1..];
      } else {
        assert outcome == Exhausted;
        draws := [];
        Exit(FoodNotPlaced);
      }
    }

    /** The turn guard shared by the four direction requests. */
    method RequestTurn(d: Direction)
      requires Valid()
      modifies this`movement
      ensures Valid()
      ensures Snapshot() == Turn(old(Snapshot()), d)
    {
      ghost var s := Snapshot();
      if status.Running? && (lastMove != Opposite(d) || snake.Size() == 1) {
        movement := d;
      }
      TurnKeepsInv(s, d);
    }

    method DirectionLeft()
      requires Valid()
      modifies this`movement
      ensures Valid()
      ensures Snapshot() == Turn(old(Snapshot()), Left)
    {
      RequestTurn(Left);
    }

    method DirectionRight()
      requires Valid()
      modifies this`movement
      ensures Valid()
      ensures Snapshot() == Turn(old(Snapshot()), Right)
    {
      RequestTurn(Right);
    }

    method DirectionUp()
      requires Valid()
      modifies this`movement
      ensures Valid()
      ensures Snapshot() == Turn(old(Snapshot()), Up)
    {
      RequestTurn(Up);
    }

    method DirectionDown()
      requires Valid()
      modifies this`movement
      ensures Valid()
      ensures Snapshot() == Turn(old(Snapshot()), Down)
    {
      RequestTurn(Down);
    }

    /** Execute the latched direction and, if the game goes on, record it. */
    method MoveSnake()
      requires Resting(Snapshot()) && status.Running?
      modifies this, snake
      ensures Snapshot() == Tick(old(Snapshot()))
    {
      MoveSnakeIn(movement);
      if status.Running? {
        lastMove := movement;
      }
    }

    /** One directed move (one of the four moveSnake variants): move the
        snake, stop on self-collision, check bounds, check food. */
    method MoveSnakeIn(d: Direction)
      requires snake.Valid() && status.Running?
      modifies this, snake
      ensures Snapshot() == Directed(old(Snapshot()), d)
    {
      var ok := snake.Move(d);
      if !ok {
        Exit(SelfCollision);
        return;
      }
      CheckBounds();
      if !status.Running? {
        return;
      }
      CheckIfAteFood();
      if !status.Running? {
        return;
      }
      movement := d;
    }

    /** End the game when the head has left the grid. */
    method CheckBounds()
      requires snake.Valid() && status.Running?
      modifies this`status
      ensures Snapshot() == AfterBounds(old(Snapshot()))
    {
      var sq := snake.Head();
      var tooFarLeft := sq.x < 0;
      var tooFarRight := sq.x >= columns;
      var tooFarUp := sq.y < 0;
      var tooFarDown := sq.y >= rows;
      if tooFarLeft || tooFarRight || tooFarUp || tooFarDown {
        Exit(OutOfBounds);
      }
    }

    /** Whether the head is on the food; when it is, the food lies on the body. */
    function IsSnakeOnFood(): (r: bool)
      reads this, snake
      requires snake.Valid()
      ensures r ==> snake.Contains(food)
    {
      snake.Head() == food
    }

    /** On the food: grow and spawn new food. */
    method CheckIfAteFood()
      requires snake.Valid() && status.Running?
      modifies this, snake
      ensures Snapshot() == AfterFood(old(Snapshot()))
    {
      if IsSnakeOnFood() {
        GrowSnake();
        NewFood();
      }
    }

    method GrowSnake()
      modifies this`score, snake
      ensures Snapshot() == AfterGrow(old(Snapshot()))
    {
      snake.Grow();
      score := score + FoodReward;
    }

    /** The score: always a non-negative multiple of 10. */
    function GetScore(): (r: int)
      reads this, snake
      requires Valid()
      ensures r >= 0 && r % 10 == 0
    {
      score
    }

    /** The text snapshot, built row by row and cell by cell. */
    method ToString() returns (text: string)
      requires Valid()
      ensures text == Render(snake.cells, food, columns, rows)
    {
      var sb := "";
      var y := 0;
      while y < rows
        invariant 0 <= y <= rows
        invariant sb == RenderRows(snake.cells, food, columns, y)
      {
        var x := 0;
        while x < columns
          invariant 0 <= x <= columns
          invariant sb == RenderRows(snake.cells, food, columns, y) + RenderLine(snake.cells, food, y, x)
        {
          var sq := Cell(x, y);
          if snake.Contains(sq) {
            sb := sb + "S";
          } else if food == sq {
            sb := sb + "F";
          } else {
            sb := sb + "-";
          }
          sb := sb + " ";
          x := x + 1;
        }
        sb := sb + "\n";
        y := y + 1;
      }
      text := sb;
    }
  }
}
