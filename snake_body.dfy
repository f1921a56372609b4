/** The snake's body: the contract the board relies on (head, contains, size,
    grow and the directional moves that report self-collision). The body is a
    non-empty sequence of cells, head first, plus a count of growth steps still
    owed: a move pushes the new head and drops the tail cell unless growth is
    pending. */
module SnakeBody {
  import opened Geometry

  /** The cells that survive a move: all of them while growth is pending,
      otherwise all but the tail. */
  function Kept(cells: seq<Cell>, pending: nat): (r: seq<Cell>)
    requires |cells| > 0
    ensures |r| == if pending > 0 then |cells| else |cells| - 1
    ensures r == cells[..|r|]
  {
    if pending > 0 then cells else cells[..|cells| - 1]
  }

  /** The body after one move in direction d. */
  function Advance(cells: seq<Cell>, pending: nat, d: Direction): (r: seq<Cell>)
    requires |cells| > 0
    ensures |r| == |cells| + (if pending > 0 then 1 else 0)
    ensures r[0] == Step(cells[0], d)
    ensures r[1..] == Kept(cells, pending)
  {
    [Step(cells[0], d)] + Kept(cells, pending)
  }

  /** The growth still owed after one move. */
  function Drain(pending: nat): nat
  {
    if pending > 0 then pending - 1 else 0
  }

  /** A move succeeds unless the new head lands on a cell the body keeps. */
  predicate MoveOk(cells: seq<Cell>, pending: nat, d: Direction)
    requires |cells| > 0
  {
    Step(cells[0], d) !in Kept(cells, pending)
  }

  /** No cell occurs twice in the body. */
  predicate Distinct(cells: seq<Cell>)
  {
    forall i, j :: 0 <= i < j < |cells| ==> cells[i] != cells[j]
  }

  /** A move reports self-collision exactly when, after the shift, the head
      coincides with some other segment of the body. */
  lemma MoveOkMeansHeadIsAlone(cells: seq<Cell>, pending: nat, d: Direction)
    requires |cells| > 0
    ensures MoveOk(cells, pending, d) <==>
      forall k :: 1 <= k < |Advance(cells, pending, d)| ==> Advance(cells, pending, d)[k] != Advance(cells, pending, d)[0]
  {
    var r := Advance(cells, pending, d);
    if !MoveOk(cells, pending, d) {
      var k :| 0 <= k < |Kept(cells, pending)| && Kept(cells, pending)[k] == Step(cells[0], d);
      assert r[k + 1] == r[0];
    }
  }

  /** A body of one segment never runs into itself, whichever way it moves. */
  lemma SingleSegmentNeverCollides(c: Cell, pending: nat, d: Direction)
    ensures MoveOk([c], pending, d)
  {
  }

  /** The head may move into the cell the tail vacates in the same step, but
      not when growth is pending, since then the tail stays. */
  lemma FollowingTheTail(cells: seq<Cell>, d: Direction)
    requires |cells| >= 2 && Distinct(cells)
    requires Step(cells[0], d) == cells[|cells| - 1]
    ensures MoveOk(cells, 0, d)
    ensures !MoveOk(cells, 1, d)
  {
    var tail := cells[|cells| - 1];
    forall k | 0 <= k < |cells| - 1
      ensures Kept(cells, 0)[k] != tail
    {
      assert cells[k] != cells[|cells| - 1];
    }
    assert cells[|cells| - 1] in Kept(cells, 1);
  }

  /** A successful move keeps the body free of repeated cells. */
  lemma AdvanceKeepsDistinct(cells: seq<Cell>, pending: nat, d: Direction)
    requires |cells| > 0 && Distinct(cells) && MoveOk(cells, pending, d)
    ensures Distinct(Advance(cells, pending, d))
  {
    var kept := Kept(cells, pending);
    var r := Advance(cells, pending, d);
    forall i, j | 0 <= i < j < |r|
      ensures r[i] != r[j]
    {
      assert r[j] == kept[j - 1];
      if i == 0 {
        assert kept[j - 1] in kept;
      } else {
        assert r[i] == cells[i - 1] && r[j] == cells[j - 1];
      }
    }
  }

  /** Every cell of the moved body is its new head or was already in the body. */
  lemma AdvanceCells(cells: seq<Cell>, pending: nat, d: Direction, c: Cell)
    requires |cells| > 0
    ensures c in Advance(cells, pending, d) <==> c == Step(cells[0], d) || c in Kept(cells, pending)
    ensures c in Kept(cells, pending) ==> c in cells
  {
    var r := Advance(cells, pending, d);
    if c in Kept(cells, pending) {
      var k :| 0 <= k < |Kept(cells, pending)| && Kept(cells, pending)[k] == c;
      assert cells[k] == c;
      assert r[k + 1] == c;
    }
  }

  /** One call to grow before a move makes the moved body exactly one cell
      longer than the same move without it. */
  lemma GrowThenMove(cells: seq<Cell>, d: Direction)
    requires |cells| > 0
    ensures |Advance(cells, 1, d)| == |Advance(cells, 0, d)| + 1
    ensures |Advance(cells, 0, d)| == |cells|
  {
  }

  /** The snake object whose moves the board drives. */
  class Snake {
    var cells: seq<Cell>
    var pending: nat

    ghost predicate Valid()
      reads this
    {
      |cells| > 0
    }

    /** A fresh body of length 1. */
    constructor (start: Cell)
      ensures Valid() && cells == [start] && pending == 0
    {
      cells := [start];
      pending := 0;
    }

    function Head(): Cell
      reads this
      requires Valid()
    {
      cells[0]
    }

    function Contains(c: Cell): bool
      reads this
    {
      c in cells
    }

    function Size(): nat
      reads this
    {
      |cells|
    }

    /** Owe one more cell: the next move keeps its tail. */
    method Grow()
      modifies this
      ensures cells == old(cells) && pending == old(pending) + 1
    {
      pending := pending + 1;
    }

    /** Shift the body one cell in direction d; false on self-collision. */
    method Move(d: Direction) returns (ok: bool)
      requires Valid()
      modifies this
      ensures Valid()
      ensures cells == Advance(old(cells), old(pending), d)
      ensures pending == Drain(old(pending))
      ensures ok == MoveOk(old(cells), old(pending), d)
    {
      var head := Step(cells[0], d);
      var kept := if pending > 0 then cells else cells[..|cells| - 1];
      ok := head !in kept;
      cells := [head] + kept;
      pending := Drain(pending);
    }
  }
}
