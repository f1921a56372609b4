/** The board's rules as a state machine over values: the turn guard, the
    stages of one tick (move, bounds check, food check, growth, food spawn)
    and the terminal game-over state that replaces the process exit. */
module Rules {
  import opened Geometry
  import opened SnakeBody

  /** Points awarded per food eaten. */
  const FoodReward: int := 10

  /** Why a game ended. FoodNotPlaced: the supplied random draws ran out
      before one landed on a free cell (always the case on a full board). */
  datatype Ending = SelfCollision | OutOfBounds | FoodNotPlaced

  datatype Status = Running | GameOver(reason: Ending, finalScore: int)

  /** Everything the board holds: the grid size, the snake's cells (head
      first) and owed growth, the pending and last-executed directions, the
      score, the food cell, the random draws not yet used, and the status. */
  datatype State = State(
    columns: int, rows: int,
    cells: seq<Cell>, pending: nat,
    movement: Direction, lastMove: Direction,
    score: int, food: Cell, draws: seq<Cell>,
    status: Status)

  // ----- Turn requests -----

  /** A turn to d is allowed unless it reverses the last executed move, and
      always when the snake has a single segment. */
  predicate TurnAllowed(s: State, d: Direction)
  {
    s.lastMove != Opposite(d) || |s.cells| == 1
  }

  /** A turn request: latch d as the pending direction when allowed. */
  function Turn(s: State, d: Direction): State
  {
    if s.status.Running? && TurnAllowed(s, d) then s.(movement := d) else s
  }

  // ----- Food placement -----

  /** A cell food may occupy: on the board and off the snake. */
  predicate Free(c: Cell, cells: seq<Cell>, columns: int, rows: int)
  {
    InBounds(c, columns, rows) && c !in cells
  }

  datatype Draw = Placed(cell: Cell, rest: seq<Cell>) | Exhausted

  /** Retry the draws in order until one is a free cell. */
  function Spawn(cells: seq<Cell>, draws: seq<Cell>, columns: int, rows: int): (r: Draw)
    ensures r.Placed? ==> Free(r.cell, cells, columns, rows)
    ensures r.Placed? ==>
      |r.rest| < |draws| && r.cell == draws[|draws| - |r.rest| - 1] && r.rest == draws[|draws| - |r.rest|..]
    ensures r.Placed? ==>
      forall j :: 0 <= j < |draws| - |r.rest| - 1 ==> !Free(draws[j], cells, columns, rows)
    ensures r.Exhausted? <==> forall j :: 0 <= j < |draws| ==> !Free(draws[j], cells, columns, rows)
    decreases |draws|
  {
    if |draws| == 0 then Exhausted
    else if Free(draws[0], cells, columns, rows) then Placed(draws[0], draws[1..])
    else
      var r := Spawn(cells, draws[1..], columns, rows);
      assert forall j :: 1 <= j < |draws| ==> draws[j] == draws[1..][j - 1];
      r
  }

  /** On a full board no draw can ever be placed. */
  lemma FullBoardExhausts(cells: seq<Cell>, draws: seq<Cell>, columns: int, rows: int)
    requires forall c :: InBounds(c, columns, rows) ==> c in cells
    ensures Spawn(cells, draws, columns, rows).Exhausted?
  {
  }

  // ----- The stages of one tick -----

  /** The snake moves in direction d; self-collision ends the game. */
  function AfterMove(s: State, d: Direction): State
    requires |s.cells| > 0
  {
    s.(cells := Advance(s.cells, s.pending, d), pending := Drain(s.pending),
       status := if MoveOk(s.cells, s.pending, d) then s.status else GameOver(SelfCollision, s.score))
  }

  /** A head outside the grid ends the game. */
  function AfterBounds(s: State): State
    requires |s.cells| > 0
  {
    if s.status.Running? && !InBounds(s.cells[0], s.columns, s.rows)
    then s.(status := GameOver(OutOfBounds, s.score))
    else s
  }

  /** Growth owed by eating: one more cell and the reward. */
  function AfterGrow(s: State): State
  {
    s.(pending := s.pending + 1, score := s.score + FoodReward)
  }

  /** Food spawn from the remaining draws; no free draw ends the game. */
  function AfterSpawn(s: State): State
  {
    match Spawn(s.cells, s.draws, s.columns, s.rows)
    case Placed(f, rest) => s.(food := f, draws := rest)
    case Exhausted => s.(draws := [], status := GameOver(FoodNotPlaced, s.score))
  }

  /** A head on the food grows the snake and spawns new food. */
  function AfterFood(s: State): State
    requires |s.cells| > 0
  {
    if s.status.Running? && s.cells[0] == s.food then AfterSpawn(AfterGrow(s)) else s
  }

  /** One directed move: move, check bounds, check food, and re-latch d. */
  function Directed(s: State, d: Direction): State
    requires |s.cells| > 0
  {
    var t := AfterFood(AfterBounds(AfterMove(s, d)));
    if t.status.Running? then t.(movement := d) else t
  }

  /** One tick: the latched direction is executed and, if the game goes on,
      recorded as the last move. Nothing happens once the game is over. */
  function Tick(s: State): (r: State)
    requires |s.cells| > 0
    ensures |r.cells| >= |s.cells|
    ensures r.score >= s.score
    ensures r.columns == s.columns && r.rows == s.rows
  {
    if !s.status.Running? then s
    else
      var t := Directed(s, s.movement);
      if t.status.Running? then t.(lastMove := t.movement) else t
  }

  /** The board right after construction: a one-cell snake heading down,
      food spawned, then one tick. */
  function Initial(columns: int, rows: int, start: Cell, draws: seq<Cell>): State
  {
    Tick(AfterSpawn(State(columns, rows, [start], 0, Down, Down, 0, start, draws, Running)))
  }

  // ----- Invariants -----

  /** What holds between ticks, before the head has been bounds-checked. */
  predicate Resting(s: State)
  {
    && s.columns > 0 && s.rows > 0
    && |s.cells| > 0 && s.pending <= 1
    && s.score >= 0 && s.score % FoodReward == 0
    && (s.status.GameOver? ==> s.status.finalScore == s.score)
    && (s.status.Running? ==> Free(s.food, s.cells, s.columns, s.rows) && Distinct(s.cells))
  }

  /** The board invariant: also, a running snake's head is on the board. */
  predicate Inv(s: State)
  {
    Resting(s) && (s.status.Running? ==> InBounds(s.cells[0], s.columns, s.rows))
  }

  // ----- Properties of turn requests -----

  /** The 180-degree rule: a single segment may turn anywhere; a longer snake
      may not reverse its last move; any other request is accepted. */
  lemma TurnRule(s: State, d: Direction)
    requires s.status.Running?
    ensures |s.cells| == 1 ==> Turn(s, d).movement == d
    ensures |s.cells| >= 2 && d == Opposite(s.lastMove) ==> Turn(s, d) == s
    ensures d != Opposite(s.lastMove) ==> Turn(s, d).movement == d
  {
    OppositeInvolution(d);
  }

  /** A turn request changes only the pending direction, repeating it changes
      nothing more, and of several requests the last accepted one wins. */
  lemma TurnFrame(s: State, d: Direction, e: Direction)
    ensures Turn(s, d) == s.(movement := Turn(s, d).movement)
    ensures Turn(Turn(s, d), d) == Turn(s, d)
    ensures s.status.Running? && TurnAllowed(s, e) ==> Turn(Turn(s, d), e).movement == e
  {
  }

  lemma TurnKeepsInv(s: State, d: Direction)
    requires Inv(s)
    ensures Inv(Turn(s, d))
  {
  }

  // ----- Properties of a tick -----

  /** Self-collision ends the game before the bounds and food checks: the
      score, food and directions are untouched. */
  lemma TickSelfCollision(s: State)
    requires |s.cells| > 0 && s.status.Running?
    requires !MoveOk(s.cells, s.pending, s.movement)
    ensures Tick(s).status == GameOver(SelfCollision, s.score)
    ensures Tick(s).score == s.score && Tick(s).food == s.food && Tick(s).draws == s.draws
    ensures Tick(s).movement == s.movement && Tick(s).lastMove == s.lastMove
  {
  }

  /** After a successful move the game ends for leaving the grid exactly when
      the new head is outside [0, columns) x [0, rows). */
  lemma TickBounds(s: State)
    requires |s.cells| > 0 && s.status.Running?
    requires MoveOk(s.cells, s.pending, s.movement)
    ensures Tick(s).status == GameOver(OutOfBounds, s.score) <==>
      var h := Step(s.cells[0], s.movement);
      h.x < 0 || h.x >= s.columns || h.y < 0 || h.y >= s.rows
  {
  }

  /** A tick the game survives executed the latched direction, recorded it
      as the last move, and left the head on the grid. */
  lemma TickSurvived(s: State)
    requires |s.cells| > 0 && s.status.Running? && Tick(s).status.Running?
    ensures MoveOk(s.cells, s.pending, s.movement)
    ensures Tick(s).cells == Advance(s.cells, s.pending, s.movement)
    ensures Tick(s).lastMove == s.movement && Tick(s).movement == Tick(s).lastMove
    ensures InBounds(Tick(s).cells[0], s.columns, s.rows)
  {
  }

  /** Eating: an in-bounds head on the food owes one more cell, scores exactly
      the reward and moves the food to a free cell (or ends the game when no
      draw is free). */
  lemma TickEats(s: State)
    requires |s.cells| > 0 && s.status.Running?
    requires MoveOk(s.cells, s.pending, s.movement)
    requires InBounds(Step(s.cells[0], s.movement), s.columns, s.rows)
    requires Step(s.cells[0], s.movement) == s.food
    ensures Tick(s).score == s.score + FoodReward
    ensures Tick(s).pending == Drain(s.pending) + 1
    ensures Tick(s).cells == Advance(s.cells, s.pending, s.movement)
    ensures Tick(s).status.Running? <==> Spawn(Tick(s).cells, s.draws, s.columns, s.rows).Placed?
    ensures Tick(s).status.Running? ==> Free(Tick(s).food, Tick(s).cells, s.columns, s.rows)
  {
  }

  /** Not eating: score, food and draws are unchanged and no growth is added. */
  lemma TickDoesNotEat(s: State)
    requires |s.cells| > 0 && s.status.Running?
    requires Step(s.cells[0], s.movement) != s.food
    ensures Tick(s).score == s.score && Tick(s).food == s.food && Tick(s).draws == s.draws
    ensures Tick(s).pending == Drain(s.pending)
  {
  }

  /** Once the game is over, a tick changes nothing. */
  lemma TickAfterGameOver(s: State)
    requires |s.cells| > 0 && !s.status.Running?
    ensures Tick(s) == s
  {
  }

  /** A tick from a resting board yields a board satisfying the invariant. */
  lemma TickKeepsInv(s: State)
    requires Resting(s)
    ensures Inv(Tick(s))
  {
    if s.status.Running? {
      var d := s.movement;
      if MoveOk(s.cells, s.pending, d) {
        AdvanceKeepsDistinct(s.cells, s.pending, d);
        AdvanceCells(s.cells, s.pending, d, s.food);
      }
    }
  }

  lemma InitialInv(columns: int, rows: int, start: Cell, draws: seq<Cell>)
    requires columns > 0 && rows > 0
    ensures Inv(Initial(columns, rows, start, draws))
  {
    var s := AfterSpawn(State(columns, rows, [start], 0, Down, Down, 0, start, draws, Running));
    assert Resting(s);
    TickKeepsInv(s);
  }

  // ----- Runs of events -----

  datatype Event = TickEvent | TurnEvent(d: Direction)

  function Apply(s: State, e: Event): (r: State)
    requires |s.cells| > 0
    ensures |r.cells| > 0
  {
    match e
    case TickEvent => Tick(s)
    case TurnEvent(d) => Turn(s, d)
  }

  /** The board after a sequence of ticks and turn requests. */
  function Run(s: State, events: seq<Event>): (r: State)
    requires |s.cells| > 0
    decreases |events|
  {
    if |events| == 0 then s else Run(Apply(s, events[0]), events[1..])
  }

  /** In every reachable board the invariant holds: in particular the score
      is a non-negative multiple of 10, it never decreases, and while the game
      runs the food is on the grid and off the snake. */
  lemma {:induction false} RunKeepsInv(s: State, events: seq<Event>)
    requires Inv(s)
    decreases |events|
    ensures Inv(Run(s, events))
    ensures Run(s, events).score >= s.score
    ensures Run(s, events).score >= 0 && Run(s, events).score % 10 == 0
  {
    if |events| > 0 {
      var t := Apply(s, events[0]);
      match events[0] {
        case TickEvent => TickKeepsInv(s);
        case TurnEvent(d) => TurnKeepsInv(s, d);
      }
      RunKeepsInv(t, events[1..]);
    }
  }

  /** After game over no sequence of events changes the board. */
  lemma {:induction false} RunAfterGameOver(s: State, events: seq<Event>)
    requires |s.cells| > 0 && !s.status.Running?
    ensures Run(s, events) == s
    decreases |events|
  {
    if |events| > 0 {
      RunAfterGameOver(Apply(s, events[0]), events[1..]);
    }
  }
}
