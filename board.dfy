/** Cells, positions and the fixed 20x20 board of the connect-five engine,
    together with the specification of a winning run of five. */
module Board {

  /** The board is always 20 by 20 (js/game.js builds it with Array(20) twice). */
  const Size: int := 20
  /** Five in a row wins (the field winningLength of the engine). */
  const WinningLength: int := 5

  /** A cell holds "", "X" or "O". */
  datatype Cell = Empty | X | O

  /** The symbols a player can move with. */
  type Mark = c: Cell | c != Empty witness X

  /** The opposite symbol: the engine's `s === "X" ? "O" : "X"`. */
  function Other(m: Mark): (r: Mark)
    ensures r != m
  {
    if m == X then O else X
  }

  datatype Pos = Pos(row: int, col: int)

  predicate InBounds(row: int, col: int)
  {
    0 <= row < Size && 0 <= col < Size
  }

  predicate OnBoard(p: Pos)
  {
    InBounds(p.row, p.col)
  }

  /** Row-major order, the order of the engine's nested `row`/`col` loops. */
  predicate Before(p: Pos, q: Pos)
  {
    p.row < q.row || (p.row == q.row && p.col < q.col)
  }

  /** A snapshot of the board: 20 rows of 20 cells. */
  type Grid = g: seq<seq<Cell>> | |g| == Size && forall i :: 0 <= i < |g| ==> |g[i]| == Size
    witness seq(20, _ => seq(20, _ => Empty))

  function EmptyGrid(): (g: Grid)
    ensures forall i, j :: InBounds(i, j) ==> g[i][j] == Empty
  {
    seq(Size, _ => seq(Size, _ => Empty))
  }

  function At(g: Grid, p: Pos): Cell
    requires OnBoard(p)
  {
    g[p.row][p.col]
  }

  /** The board with one cell overwritten: a committed move or a trial placement. */
  function Place(g: Grid, row: int, col: int, c: Cell): (r: Grid)
    requires InBounds(row, col)
    ensures r[row][col] == c
    ensures forall i, j :: InBounds(i, j) && (i != row || j != col) ==> r[i][j] == g[i][j]
  {
    g[row := g[row][col := c]]
  }

  /** No empty cell remains. */
  ghost predicate Full(g: Grid)
  {
    forall i, j :: InBounds(i, j) ==> g[i][j] != Empty
  }

  /** The four line directions, in the order the engine scans them:
      {row: 0, col: 1}, {row: 1, col: 0}, {row: 1, col: 1}, {row: 1, col: -1}. */
  datatype Dir = Horizontal | Vertical | Diagonal | AntiDiagonal

  const Directions: seq<Dir> := [Horizontal, Vertical, Diagonal, AntiDiagonal]

  function RowStep(d: Dir): int
  {
    match d
    case Horizontal => 0
    case _ => 1
  }

  function ColStep(d: Dir): int
  {
    match d
    case Horizontal => 1
    case Vertical => 0
    case Diagonal => 1
    case AntiDiagonal => -1
  }

  /** `row + dir.row * i`, written without a product. */
  function RowAt(row: int, d: Dir, i: int): (r: int)
    ensures r == row + RowStep(d) * i
  {
    match d
    case Horizontal => row
    case _ => row + i
  }

  /** `col + dir.col * i`, written without a product. */
  function ColAt(col: int, d: Dir, i: int): (r: int)
    ensures r == col + ColStep(d) * i
  {
    match d
    case Horizontal => col + i
    case Vertical => col
    case Diagonal => col + i
    case AntiDiagonal => col - i
  }

  /** What lies at offset `i` from (row, col) along `d`: a cell, or nothing. */
  datatype Square = OffBoard | On(cell: Cell)

  function Along(g: Grid, row: int, col: int, d: Dir, i: int): Square
  {
    var r, c := RowAt(row, d, i), ColAt(col, d, i);
    if InBounds(r, c) then On(g[r][c]) else OffBoard
  }

  /** The five cells at offsets k .. k+4 along `d` are on the board and all hold `m`. */
  predicate RunFrom(g: Grid, row: int, col: int, d: Dir, k: int, m: Cell)
  {
    forall i :: k <= i < k + WinningLength ==> Along(g, row, col, d, i) == On(m)
  }

  /** A run of five through (row, col) that the engine's window of offsets
      -4 .. +4 can see: it starts at an offset k with -4 <= k <= 0. */
  predicate RunThrough(g: Grid, row: int, col: int, d: Dir, k: int)
    requires InBounds(row, col)
  {
    -WinningLength < k <= 0 && RunFrom(g, row, col, d, k, g[row][col])
  }

  /** The cell (row, col) is occupied and lies in a run of five of its own symbol. */
  ghost predicate HasRun(g: Grid, row: int, col: int)
    requires InBounds(row, col)
  {
    g[row][col] != Empty && exists d: Dir, k :: RunThrough(g, row, col, d, k)
  }

  /** The position of a direction in the scan order. */
  function DirIndex(d: Dir): (n: nat)
    ensures n < |Directions| && Directions[n] == d
  {
    match d
    case Horizontal => 0
    case Vertical => 1
    case Diagonal => 2
    case AntiDiagonal => 3
  }

  /** (d, k) is the first run the engine's scan meets: no run in an earlier
      direction, and none starting earlier in direction d. */
  ghost predicate FirstRun(g: Grid, row: int, col: int, d: Dir, k: int)
    requires InBounds(row, col)
  {
    && g[row][col] != Empty
    && RunThrough(g, row, col, d, k)
    && (forall d': Dir, k' :: DirIndex(d') < DirIndex(d) ==> !RunThrough(g, row, col, d', k'))
    && (forall k' :: k' < k ==> !RunThrough(g, row, col, d, k'))
  }

  /** The coordinates of the five cells at offsets k .. k+4 along d. */
  function RunCells(row: int, col: int, d: Dir, k: int): (cells: seq<Pos>)
    ensures |cells| == WinningLength
    ensures forall t :: 0 <= t < WinningLength ==> cells[t] == Pos(RowAt(row, d, k + t), ColAt(col, d, k + t))
  {
    seq(WinningLength, t => Pos(RowAt(row, d, k + t), ColAt(col, d, k + t)))
  }

  /** The winning line recorded for a run: five on-board cells holding the
      symbol at (row, col), consecutive along one direction, and (row, col)
      among them. */
  lemma RunCellsFormLine(g: Grid, row: int, col: int, d: Dir, k: int)
    requires InBounds(row, col) && RunThrough(g, row, col, d, k)
    ensures var cells := RunCells(row, col, d, k);
      && |cells| == WinningLength
      && Pos(row, col) in cells
      && (forall t :: 0 <= t < |cells| ==> OnBoard(cells[t]) && At(g, cells[t]) == g[row][col])
      && (forall t :: 0 < t < |cells| ==>
            cells[t] == Pos(cells[t - 1].row + RowStep(d), cells[t - 1].col + ColStep(d)))
  {
    var cells := RunCells(row, col, d, k);
    assert cells[-k] == Pos(row, col);
    forall t | 0 <= t < |cells|
      ensures OnBoard(cells[t]) && At(g, cells[t]) == g[row][col]
    {
      assert Along(g, row, col, d, k + t) == On(g[row][col]);
    }
  }
}
