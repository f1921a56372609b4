/** Concrete ticks on small boards (bodies listed head first). */
module Scenarios {
  import opened Geometry
  import opened SnakeBody
  import opened Rules

  /** A one-cell snake at (5,5) heading down onto food at (5,6): the score
      becomes 10, one cell of growth is owed, and the food moves to the first
      draw not on the snake. */
  lemma EatingScenario()
    ensures var s := State(10, 10, [Cell(5, 5)], 0, Down, Down, 0, Cell(5, 6), [Cell(5, 6), Cell(2, 3)], Running);
      var t := Tick(s);
      t.status == Running && t.cells == [Cell(5, 6)] && t.pending == 1 && t.score == 10
      && t.food == Cell(2, 3) && t.draws == [] && t.lastMove == Down
  {
  }

  /** The body (0,5),(1,5) moving left puts its head at (-1,5): game over
      with the score unchanged. */
  lemma LeavingTheGridScenario()
    ensures var s := State(10, 10, [Cell(0, 5), Cell(1, 5)], 0, Left, Left, 0, Cell(7, 7), [], Running);
      Tick(s).status == GameOver(OutOfBounds, 0)
  {
  }

  /** A five-cell body (2,2),(2,3),(3,3),(3,2),(3,1) that last moved up
      asks to turn right: the turn is accepted, and the next tick puts its head
      on (3,2), its fourth segment, which the move keeps: game over by
      self-collision. */
  lemma SelfCollisionScenario()
    ensures var s := State(10, 10, [Cell(2, 2), Cell(2, 3), Cell(3, 3), Cell(3, 2), Cell(3, 1)], 0, Up, Up, 0, Cell(7, 7), [], Running);
      TurnAllowed(s, Right) && Turn(s, Right).movement == Right
      && Tick(Turn(s, Right)).status == GameOver(SelfCollision, 0)
  {
    var cells := [Cell(2, 2), Cell(2, 3), Cell(3, 3), Cell(3, 2), Cell(3, 1)];
    assert Kept(cells, 0)[3] == Cell(3, 2);
    assert !MoveOk(cells, 0, Right);
  }

  /** On a 2 by 1 board a snake owing growth eats the last free cell: the
      body fills the board, no draw can be placed, and the game ends. */
  lemma FullBoardScenario()
    ensures var s := State(2, 1, [Cell(1, 0)], 1, Left, Right, 10, Cell(0, 0), [Cell(0, 0), Cell(1, 0)], Running);
      Tick(s).cells == [Cell(0, 0), Cell(1, 0)] && Tick(s).status == GameOver(FoodNotPlaced, 20)
  {
  }

  /** When the first food lands just below the start cell, the constructor's
      tick already eats it: the new board has score 10. */
  lemma FirstTickEatsScenario()
    ensures var s := Initial(10, 10, Cell(5, 5), [Cell(5, 6), Cell(0, 0)]);
      Inv(s) && s.status == Running && s.score == 10 && s.food == Cell(0, 0)
  {
    InitialInv(10, 10, Cell(5, 5), [Cell(5, 6), Cell(0, 0)]);
  }

  /** On a 1 by 1 board the snake covers the only cell, so the constructor's
      food spawn finds no free draw: game over before any growth. */
  lemma OneCellBoardScenario(start: Cell, draws: seq<Cell>)
    requires InBounds(start, 1, 1)
    ensures Initial(1, 1, start, draws).status == GameOver(FoodNotPlaced, 0)
  {
    FullBoardExhausts([start], draws, 1, 1);
  }
}
