/** The board's text snapshot: one line per row, each cell a token "c "
    where c is 'S' on the snake, else 'F' on the food, else '-'. */
module BoardText {
  import opened Geometry

  /** The character for one cell; the snake is drawn over the food. */
  function CellChar(cells: seq<Cell>, food: Cell, c: Cell): char
  {
    if c in cells then 'S' else if c == food then 'F' else '-'
  }

  /** The first n tokens of row y. */
  function RenderLine(cells: seq<Cell>, food: Cell, y: int, n: nat): (r: string)
    ensures |r| == 2 * n
  {
    if n == 0 then []
    else RenderLine(cells, food, y, n - 1) + [CellChar(cells, food, Cell(n - 1, y)), ' ']
  }

  /** The first k rows, each of `columns` tokens ended by a newline. */
  function RenderRows(cells: seq<Cell>, food: Cell, columns: nat, k: nat): (r: string)
    ensures |r| == k * (2 * columns + 1)
  {
    if k == 0 then []
    else RenderRows(cells, food, columns, k - 1) + RenderLine(cells, food, k - 1, columns) + "\n"
  }

  /** The whole board, top row first. */
  function Render(cells: seq<Cell>, food: Cell, columns: nat, rows: nat): string
  {
    RenderRows(cells, food, columns, rows)
  }

  /** Token x of a line is the cell's character followed by a blank. */
  lemma {:induction false} LineAt(cells: seq<Cell>, food: Cell, y: int, n: nat, x: nat)
    requires x < n
    ensures RenderLine(cells, food, y, n)[2 * x] == CellChar(cells, food, Cell(x, y))
    ensures RenderLine(cells, food, y, n)[2 * x + 1] == ' '
  {
    if x < n - 1 {
      LineAt(cells, food, y, n - 1, x);
    }
  }

  /** Multiplication by a row width is monotone; RenderAt uses it to place a
      row's offset inside the text. */
  lemma MulMono(a: nat, b: nat, w: nat)
    requires a <= b
    ensures a * w <= b * w
  {
  }

  /** The layout of the snapshot: `rows` lines of `2 * columns + 1`
      characters; at column x of line y stands 'S' if the snake holds
      (x, y), else 'F' if the food is there, else '-', then a blank; each
      line ends with a newline. */
  lemma {:induction false} RenderAt(cells: seq<Cell>, food: Cell, columns: nat, rows: nat, x: nat, y: nat)
    requires x < columns && y < rows
    ensures |Render(cells, food, columns, rows)| == rows * (2 * columns + 1)
    ensures Render(cells, food, columns, rows)[y * (2 * columns + 1) + 2 * x] ==
      if Cell(x, y) in cells then 'S' else if Cell(x, y) == food then 'F' else '-'
    ensures Render(cells, food, columns, rows)[y * (2 * columns + 1) + 2 * x + 1] == ' '
    ensures Render(cells, food, columns, rows)[y * (2 * columns + 1) + 2 * columns] == '\n'
  {
    var w := 2 * columns + 1;
    var prefix := RenderRows(cells, food, columns, rows - 1);
    var line := RenderLine(cells, food, rows - 1, columns);
    assert Render(cells, food, columns, rows) == prefix + line + "\n";
    if y < rows - 1 {
      MulMono(y + 1, rows - 1, w);
      RenderAt(cells, food, columns, rows - 1, x, y);
    } else {
      assert y * w == |prefix|;
      LineAt(cells, food, y, columns, x);
    }
  }
}
