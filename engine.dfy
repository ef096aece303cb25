/** The engine object of js/game.js, class TicTacToeGame: the board as a
    20x20 array that moves and trial placements write in place, the turn,
    the game-over flag, the winning line and the countdown. Its methods are
    proved against the pure specifications of Board, Patterns and Clock. */
module Engine {
  import opened Board
  import opened Patterns
  import opened Clock
  import opened Moves

  datatype Option<T> = None | Some(value: T)

  datatype Difficulty = Easy | Hard

  /** What makeMove returns: `{valid: false}`, a win, a draw, or the next turn
      (with `aiMove` set when the AI is to play next). */
  datatype MoveResult =
    | Invalid
    | Won(winner: Mark, winningCells: seq<Pos>)
    | Drawn(currentPlayer: Mark)
    | Moved(currentPlayer: Mark, timeRemaining: string, aiMove: bool)

  /** How makeHardAIMove decides: its own win, else a block of the player's
      win, else the strategic search (not part of this model). */
  datatype HardMove = Win(pos: Pos) | Block(pos: Pos) | Strategic

  /** What init returns besides the board itself. */
  datatype InitResult = InitResult(currentPlayer: Mark, timeRemaining: string)

  /** The contents of a 20x20 array as a Grid. */
  ghost function Snapshot(a: array2<Cell>): (g: Grid)
    reads a
    requires a.Length0 == Size && a.Length1 == Size
    ensures forall i, j :: InBounds(i, j) ==> g[i][j] == a[i, j]
  {
    seq(Size, i requires 0 <= i < Size reads a => seq(Size, j requires 0 <= j < Size reads a => a[i, j]))
  }

  lemma SnapshotIs(a: array2<Cell>, g: Grid)
    requires a.Length0 == Size && a.Length1 == Size
    requires forall i, j :: InBounds(i, j) ==> a[i, j] == g[i][j]
    ensures Snapshot(a) == g
  {
    var s := Snapshot(a);
    forall i | 0 <= i < Size
      ensures s[i] == g[i]
    {
      assert forall j :: 0 <= j < Size ==> s[i][j] == g[i][j];
    }
  }

  /** The offsets along d from (row, col) that land on the board form an
      interval: between two on-board offsets every offset is on the board. */
  lemma AlongConvex(g: Grid, row: int, col: int, d: Dir, a: int, j: int, b: int)
    requires a <= j <= b
    ensures Along(g, row, col, d, a) == OffBoard || Along(g, row, col, d, b) == OffBoard
         || Along(g, row, col, d, j) != OffBoard
  {
  }

  /** `line` is what checkWin has collected just before offset i: the cells
      at offsets i - |line| .. i - 1, all holding m, and the cell before them
      (if still in the window) does not hold m. */
  ghost predicate TrailingRun(g: Grid, row: int, col: int, d: Dir, i: int, line: seq<Pos>, m: Cell)
  {
    && (forall t :: 0 <= t < |line| ==>
          line[t] == Pos(RowAt(row, d, i - |line| + t), ColAt(col, d, i - |line| + t))
          && Along(g, row, col, d, i - |line| + t) == On(m))
    && (i - |line| - 1 >= -WinningLength + 1 ==> Along(g, row, col, d, i - |line| - 1) != On(m))
  }

  lemma TrailingExtend(g: Grid, row: int, col: int, d: Dir, i: int, line: seq<Pos>, m: Cell)
    requires TrailingRun(g, row, col, d, i, line, m) && Along(g, row, col, d, i) == On(m)
    ensures TrailingRun(g, row, col, d, i + 1, line + [Pos(RowAt(row, d, i), ColAt(col, d, i))], m)
  {
    var line' := line + [Pos(RowAt(row, d, i), ColAt(col, d, i))];
    var n := |line|;
    assert |line'| == n + 1 && (i + 1) - |line'| == i - n;
    forall t | 0 <= t < n + 1
      ensures line'[t] == Pos(RowAt(row, d, i - n + t), ColAt(col, d, i - n + t))
      ensures Along(g, row, col, d, i - n + t) == On(m)
    {
      if t < n {
        assert line'[t] == line[t];
      } else {
        assert i - n + t == i;
      }
    }
  }

  /** Five collected cells ending at offset i are a run of five starting at i - 4. */
  lemma TrailingFive(g: Grid, row: int, col: int, d: Dir, i: int, line: seq<Pos>, m: Cell)
    requires TrailingRun(g, row, col, d, i + 1, line, m) && |line| == WinningLength
    ensures RunFrom(g, row, col, d, i - WinningLength + 1, m)
    ensures line == RunCells(row, col, d, i - WinningLength + 1)
  {
    forall t | i - WinningLength + 1 <= t < i + 1
      ensures Along(g, row, col, d, t) == On(m)
    {
      assert line[t - (i - WinningLength + 1)] == Pos(RowAt(row, d, t), ColAt(col, d, t));
    }
    var cells := RunCells(row, col, d, i - WinningLength + 1);
    forall t | 0 <= t < WinningLength
      ensures line[t] == cells[t]
    {
    }
  }

  /** Fewer than five collected cells ending at offset i: no run of five ends at i. */
  lemma TrailingShort(g: Grid, row: int, col: int, d: Dir, i: int, line: seq<Pos>, m: Cell)
    requires TrailingRun(g, row, col, d, i + 1, line, m) && |line| < WinningLength && i >= 0
    ensures !RunFrom(g, row, col, d, i - WinningLength + 1, m)
  {
    assert Along(g, row, col, d, i - |line|) != On(m);
  }

  /** What checkWin's walk along d from (row, col), holding m, knows before
      offset i: `line` is the trailing run while the walk is still on the
      board, and no run of five ends before offset i. */
  ghost predicate ScanInv(g: Grid, row: int, col: int, d: Dir, i: int, line: seq<Pos>, m: Cell)
  {
    && InBounds(row, col) && g[row][col] == m
    && -WinningLength + 1 <= i <= WinningLength
    && |line| < WinningLength && i - |line| >= -WinningLength + 1
    && (i <= 0 || Along(g, row, col, d, i - 1) != OffBoard ==> TrailingRun(g, row, col, d, i, line, m))
    && (i <= 0 && i - 1 >= -WinningLength + 1 && Along(g, row, col, d, i - 1) == OffBoard ==> line == [])
    && (forall k :: k + WinningLength <= i ==> !RunThrough(g, row, col, d, k))
  }

  /** The walk meets an on-board cell at offset i: it extends or empties the
      line; five cells are the first run of five in this direction. */
  lemma ScanOn(g: Grid, row: int, col: int, d: Dir, i: int, line: seq<Pos>, line': seq<Pos>, m: Cell)
    requires ScanInv(g, row, col, d, i, line, m) && i < WinningLength
    requires Along(g, row, col, d, i) != OffBoard
    requires line' == if Along(g, row, col, d, i) == On(m)
                      then line + [Pos(RowAt(row, d, i), ColAt(col, d, i))] else []
    ensures |line'| >= WinningLength ==>
      && RunThrough(g, row, col, d, i - WinningLength + 1)
      && line' == RunCells(row, col, d, i - WinningLength + 1)
      && forall k :: k < i - WinningLength + 1 ==> !RunThrough(g, row, col, d, k)
    ensures |line'| < WinningLength ==> ScanInv(g, row, col, d, i + 1, line', m)
  {
    assert Along(g, row, col, d, 0) != OffBoard;
    if i > 0 {
      AlongConvex(g, row, col, d, 0, i - 1, i);
    }
    assert TrailingRun(g, row, col, d, i, line, m);
    if Along(g, row, col, d, i) == On(m) {
      TrailingExtend(g, row, col, d, i, line, m);
    }
    assert TrailingRun(g, row, col, d, i + 1, line', m);
    if |line'| >= WinningLength {
      TrailingFive(g, row, col, d, i, line', m);
    } else if i >= 0 {
      TrailingShort(g, row, col, d, i, line', m);
    }
  }

  /** The walk meets an off-board offset i: nothing changes, and no run of
      five can contain offset i. */
  lemma ScanOff(g: Grid, row: int, col: int, d: Dir, i: int, line: seq<Pos>, m: Cell)
    requires ScanInv(g, row, col, d, i, line, m) && i < WinningLength
    requires Along(g, row, col, d, i) == OffBoard
    ensures ScanInv(g, row, col, d, i + 1, line, m)
  {
    assert Along(g, row, col, d, 0) != OffBoard;
    assert !RunFrom(g, row, col, d, i - WinningLength + 1, m);
    if i < 0 && i - 1 >= -WinningLength + 1 {
      AlongConvex(g, row, col, d, i - 1, i, 0);
    }
  }

  class TicTacToeGame {
    var board: array2<Cell>
    var currentSymbol: Mark
    var playerSymbol: Mark
    var aiSymbol: Mark
    var gameActive: bool
    var difficulty: Difficulty
    var winningCells: seq<Pos>
    var timerDuration: int
    var timeRemaining: int
    /** The countdown is running: the engine's `timerInterval` is not null. */
    var timerRunning: bool

    ghost predicate Valid()
      reads this
    {
      && board.Length0 == Size && board.Length1 == Size
      && (|winningCells| == 0 || |winningCells| == WinningLength)
      && (forall i :: 0 <= i < |winningCells| ==> OnBoard(winningCells[i]))
    }

    ghost function Cells(): Grid
      reads this`board, board
      requires board.Length0 == Size && board.Length1 == Size
    {
      Snapshot(board)
    }

    /** The engine before any game: an empty board, X to move, the player X,
        the AI O, not active, easy, fifteen minutes on a stopped clock. */
    constructor ()
      ensures Valid() && fresh(board) && Cells() == EmptyGrid()
      ensures currentSymbol == X && playerSymbol == X && aiSymbol == O
      ensures !gameActive && difficulty == Easy && winningCells == []
      ensures timerDuration == 15 * 60 && timeRemaining == timerDuration && !timerRunning
    {
      board := new Cell[Size, Size]((i, j) => Empty);
      currentSymbol := X;
      playerSymbol := X;
      aiSymbol := O;
      gameActive := false;
      difficulty := Easy;
      winningCells := [];
      timerDuration := 15 * 60;
      timeRemaining := timerDuration;
      timerRunning := false;
      new;
      SnapshotIs(board, EmptyGrid());
    }

    /** init: a fresh empty board, the player's symbol and its opposite for
        the AI, X to move, active, and the countdown restarted from
        `timerInSeconds` when one is given, else from the previous duration. */
    method Init(playerSymbol: Mark, difficulty: Difficulty, timerInSeconds: Option<int>) returns (r: InitResult)
      modifies this
      ensures Valid() && fresh(board) && Cells() == EmptyGrid()
      ensures this.playerSymbol == playerSymbol && aiSymbol == Other(playerSymbol) && currentSymbol == X
      ensures this.difficulty == difficulty && gameActive && winningCells == []
      ensures timerDuration == (if timerInSeconds.Some? then timerInSeconds.value else old(timerDuration))
      ensures timeRemaining == timerDuration && timerRunning
      ensures r == InitResult(X, FormatTime(timeRemaining))
    {
      board := new Cell[Size, Size]((i, j) => Empty);
      this.playerSymbol := playerSymbol;
      aiSymbol := Other(playerSymbol);
      currentSymbol := X;
      this.difficulty := difficulty;
      gameActive := true;
      winningCells := [];
      if timerInSeconds.Some? {
        timerDuration := timerInSeconds.value;
      }
      StopTimer();
      timeRemaining := timerDuration;
      StartTimer();
      r := InitResult(currentSymbol, FormatTime(timeRemaining));
      SnapshotIs(board, EmptyGrid());
    }

    method StartTimer()
      modifies this`timerRunning
      ensures timerRunning
    {
      timerRunning := true;
    }

    method StopTimer()
      modifies this`timerRunning
      ensures !timerRunning
    {
      timerRunning := false;
    }

    /** One second of the countdown: while the clock runs, take a second off;
        at zero or below the game ends (a draw on time) and the clock stops.
        A stopped clock does not tick. */
    method Tick()
      modifies this`timeRemaining, this`gameActive, this`timerRunning
      ensures !old(timerRunning) ==> timeRemaining == old(timeRemaining) && gameActive == old(gameActive) && !timerRunning
      ensures old(timerRunning) ==> timeRemaining == old(timeRemaining) - 1
      ensures old(timerRunning) && timeRemaining <= 0 ==> !gameActive && !timerRunning
      ensures old(timerRunning) && timeRemaining > 0 ==> gameActive == old(gameActive) && timerRunning
    {
      if timerRunning {
        timeRemaining := timeRemaining - 1;
        if timeRemaining <= 0 {
          gameActive := false;
          StopTimer();
        }
      }
    }

    /** reset: the clock stops, the game is over and no line is marked. */
    method Reset()
      requires Valid()
      modifies this`gameActive, this`winningCells, this`timerRunning
      ensures Valid() && !gameActive && winningCells == [] && !timerRunning
    {
      StopTimer();
      gameActive := false;
      winningCells := [];
    }

    /** checkDraw: no empty cell remains. */
    method CheckDraw() returns (draw: bool)
      requires Valid()
      ensures draw <==> Full(Cells())
    {
      for row := 0 to Size
        invariant forall i, j :: 0 <= i < row && 0 <= j < Size ==> board[i, j] != Empty
      {
        for col := 0 to Size
          invariant forall j :: 0 <= j < col ==> board[row, j] != Empty
        {
          if board[row, col] == Empty {
            return false;
          }
        }
      }
      return true;
    }

    /** The inner loop of checkWin for one direction: offsets -4 .. +4 are
        walked in order, `line` keeps the cells of the current run of the
        symbol at (row, col) (an off-board offset is skipped, another symbol
        empties it), and the walk stops as soon as it holds five cells. */
    method ScanDirection(row: int, col: int, dir: Dir) returns (found: bool, line: seq<Pos>, ghost k: int)
      requires Valid() && InBounds(row, col) && board[row, col] != Empty
      ensures found ==>
        && RunThrough(Cells(), row, col, dir, k) && line == RunCells(row, col, dir, k)
        && forall k' :: k' < k ==> !RunThrough(Cells(), row, col, dir, k')
      ensures !found ==> forall k' :: !RunThrough(Cells(), row, col, dir, k')
    {
      var symbol := board[row, col];
      ghost var g := Cells();
      line := [];
      k := 0;
      for i := -WinningLength + 1 to WinningLength
        invariant ScanInv(g, row, col, dir, i, line, symbol)
      {
        var newRow, newCol := RowAt(row, dir, i), ColAt(col, dir, i);
        if InBounds(newRow, newCol) {
          assert Along(g, row, col, dir, i) == On(board[newRow, newCol]);
          ghost var before := line;
          if board[newRow, newCol] == symbol {
            line := line + [Pos(newRow, newCol)];
          } else {
            line := [];
          }
          ScanOn(g, row, col, dir, i, before, line, symbol);
          if |line| >= WinningLength {
            return true, line, i - WinningLength + 1;
          }
        } else {
          ScanOff(g, row, col, dir, i, line, symbol);
        }
      }
      return false, line, k;
    }

    /** checkWin: the directions are scanned in turn and the first run of
        five found decides; it is recorded as the winning line unless
        `checkOnly`. */
    method CheckWin(row: int, col: int, checkOnly: bool) returns (win: bool)
      requires Valid() && InBounds(row, col)
      modifies this`winningCells
      ensures Valid()
      ensures win <==> HasRun(Cells(), row, col)
      ensures win && !checkOnly ==>
        exists d: Dir, k :: FirstRun(Cells(), row, col, d, k) && winningCells == RunCells(row, col, d, k)
      ensures !win || checkOnly ==> winningCells == old(winningCells)
    {
      if board[row, col] == Empty {
        return false;
      }
      for di := 0 to |Directions|
        invariant winningCells == old(winningCells)
        invariant forall d: Dir, k :: DirIndex(d) < di ==> !RunThrough(Cells(), row, col, d, k)
      {
        var dir := Directions[di];
        assert DirIndex(dir) == di;
        var found, line, k := ScanDirection(row, col, dir);
        if found {
          assert FirstRun(Cells(), row, col, dir, k);
          RunCellsFormLine(Cells(), row, col, dir, k);
          if !checkOnly {
            winningCells := line;
          }
          return true;
        }
      }
      return false;
    }

    /** makeMove: refused (changing nothing) when the game is over or the
        cell is taken; otherwise the current symbol goes into the cell, and
        then a win ends the game with the mover as winner, a full board ends
        it as a draw, and anything else passes the turn to the other symbol. */
    method MakeMove(row: int, col: int) returns (res: MoveResult)
      requires Valid() && InBounds(row, col)
      modifies this`currentSymbol, this`gameActive, this`winningCells, this`timerRunning, board
      ensures Valid()
      ensures !old(gameActive) || old(board[row, col]) != Empty ==>
        && res == Invalid && unchanged(board) && Cells() == old(Cells())
        && currentSymbol == old(currentSymbol) && gameActive == old(gameActive)
        && winningCells == old(winningCells) && timerRunning == old(timerRunning)
      ensures old(gameActive) && old(board[row, col]) == Empty ==>
        res != Invalid && Cells() == Place(old(Cells()), row, col, old(currentSymbol))
      ensures res.Won? <==> old(gameActive) && old(board[row, col]) == Empty && HasRun(Cells(), row, col)
      ensures res.Won? ==>
        && !gameActive && !timerRunning
        && currentSymbol == old(currentSymbol) && res.winner == currentSymbol && res.winningCells == winningCells
        && exists d: Dir, k :: FirstRun(Cells(), row, col, d, k) && winningCells == RunCells(row, col, d, k)
      ensures res.Drawn? <==>
        old(gameActive) && old(board[row, col]) == Empty && !HasRun(Cells(), row, col) && Full(Cells())
      ensures res.Drawn? ==>
        && !gameActive && !timerRunning && currentSymbol == old(currentSymbol)
        && res.currentPlayer == currentSymbol && winningCells == old(winningCells)
      ensures res.Moved? ==>
        && gameActive && timerRunning == old(timerRunning) && winningCells == old(winningCells)
        && currentSymbol == Other(old(currentSymbol))
        && res == Moved(currentSymbol, FormatTime(timeRemaining), currentSymbol == aiSymbol)
    {
      if !gameActive || board[row, col] != Empty {
        return Invalid;
      }
      ghost var g := Cells();
      board[row, col] := currentSymbol;
      SnapshotIs(board, Place(g, row, col, currentSymbol));
      var won := CheckWin(row, col, false);
      if won {
        gameActive := false;
        StopTimer();
        return Won(currentSymbol, winningCells);
      }
      var draw := CheckDraw();
      if draw {
        gameActive := false;
        StopTimer();
        return Drawn(currentSymbol);
      }
      currentSymbol := Other(currentSymbol);
      res := Moved(currentSymbol, FormatTime(timeRemaining), currentSymbol == aiSymbol && gameActive);
    }

    // -------------------------------------------------------------------
    // Line primitives

    /** The bounds test and board read every scanning loop starts with: what
        lies at offset i from (row, col) along dir. */
    method Look(row: int, col: int, dir: Dir, i: int) returns (sq: Square)
      requires Valid()
      ensures sq == Along(Cells(), row, col, dir, i)
    {
      var newRow, newCol := RowAt(row, dir, i), ColAt(col, dir, i);
      if InBounds(newRow, newCol) {
        sq := On(board[newRow, newCol]);
      } else {
        sq := OffBoard;
      }
    }

    /** The loop countConsecutive and countOpenEnds run on each side: walk
        offsets 1 .. limit away from (row, col), forwards or backwards, while
        the cells are on the board and hold `symbol`. */
    method RunLength(row: int, col: int, dir: Dir, forward: bool, symbol: Cell, limit: int) returns (n: int)
      requires Valid() && limit >= 0
      ensures n == Ray(Cells(), row, col, dir, forward, symbol, limit)
    {
      ghost var g := Cells();
      n := 0;
      var i := 1;
      while i <= limit
        invariant 1 <= i <= limit + 1 && n == i - 1
        invariant Ray(g, row, col, dir, forward, symbol, limit) == n + RayFrom(g, row, col, dir, forward, symbol, i, limit)
        decreases limit + 1 - i
      {
        var sq := Look(row, col, dir, Off(forward, i));
        if sq != On(symbol) {
          break;
        }
        n := n + 1;
        i := i + 1;
      }
    }

    /** countConsecutive: the stone itself plus the runs of `symbol` on both
        sides, each looked at up to four cells away. */
    method CountConsecutive(row: int, col: int, dir: Dir, symbol: Cell) returns (count: int)
      requires Valid()
      ensures count == Consecutive(Cells(), row, col, dir, symbol)
      ensures 1 <= count <= 9
    {
      var forward := RunLength(row, col, dir, true, symbol, 4);
      var backward := RunLength(row, col, dir, false, symbol, 4);
      count := 1 + forward + backward;
      LineCountBounds(Cells(), row, col, dir, symbol);
    }

    /** One end of countOpenEnds: the run of `symbol` on that side (up to
        four cells), then whether the cell just past it is on the board and
        empty. */
    method EndOpenSide(row: int, col: int, dir: Dir, forward: bool, symbol: Cell) returns (open: int)
      requires Valid()
      ensures open == EndOpen(Cells(), row, col, dir, forward, symbol)
    {
      var toEnd := RunLength(row, col, dir, forward, symbol, 4);
      var past := Look(row, col, dir, Off(forward, toEnd + 1));
      open := if past == On(Empty) then 1 else 0;
    }

    /** countOpenEnds: how many of the two cells just past the ends of the
        run are on the board and empty. */
    method CountOpenEnds(row: int, col: int, dir: Dir, symbol: Cell) returns (openEnds: int)
      requires Valid()
      ensures openEnds == OpenEnds(Cells(), row, col, dir, symbol)
      ensures 0 <= openEnds <= 2
    {
      var startOpen := EndOpenSide(row, col, dir, false, symbol);
      var endOpen := EndOpenSide(row, col, dir, true, symbol);
      openEnds := startOpen + endOpen;
    }

    /** detectThreat: four in a row with an open end, or three with two. */
    method DetectThreat(row: int, col: int, dir: Dir, symbol: Cell) returns (threat: bool)
      requires Valid()
      ensures threat == Threat(Cells(), row, col, dir, symbol)
    {
      var consecutive := CountConsecutive(row, col, dir, symbol);
      var openEnds := CountOpenEnds(row, col, dir, symbol);
      threat := (consecutive >= 4 && openEnds >= 1) || (consecutive >= 3 && openEnds >= 2);
    }

    /** detectFork's loop: the directions in which detectThreat holds. */
    method CountThreats(row: int, col: int, symbol: Mark) returns (threatCount: int)
      requires Valid()
      ensures threatCount == ThreatCount(Cells(), row, col, symbol, |Directions|)
    {
      threatCount := 0;
      for di := 0 to |Directions|
        invariant threatCount == ThreatCount(Cells(), row, col, symbol, di)
      {
        var threat := DetectThreat(row, col, Directions[di], symbol);
        if threat {
          threatCount := threatCount + 1;
        }
      }
    }

    /** detectFork: with `symbol` placed at (row, col) for the trial, a
        threat in at least two of the four directions; the cell gets its
        original content back. */
    method DetectFork(row: int, col: int, symbol: Mark) returns (fork: bool)
      requires Valid() && InBounds(row, col)
      modifies board
      ensures unchanged(board)
      ensures fork == ForkAt(Place(Cells(), row, col, symbol), row, col, symbol)
    {
      ghost var g := Cells();
      var originalValue := board[row, col];
      board[row, col] := symbol;
      SnapshotIs(board, Place(g, row, col, symbol));
      var threatCount := CountThreats(row, col, symbol);
      board[row, col] := originalValue;
      SnapshotIs(board, g);
      fork := threatCount >= 2;
    }

    /** One side of evaluateDirectionalThreat's scan over offsets 1 .. 5. */
    method ScanOneSide(row: int, col: int, dir: Dir, forward: bool, symbol: Cell) returns (s: SideScan)
      requires Valid()
      ensures s == Side(Cells(), row, col, dir, forward, symbol)
    {
      ghost var g := Cells();
      s := FreshScan;
      var i := 1;
      while i <= 5
        invariant 1 <= i <= 6
        invariant Side(g, row, col, dir, forward, symbol) == ScanSide(g, row, col, dir, forward, symbol, i, s)
        decreases 6 - i
      {
        var sq := Look(row, col, dir, Off(forward, i));
        if sq == OffBoard {
          break;
        }
        if sq.cell == symbol {
          if s.gap {
            s := SideScan(1, s.open, false, s.gaps + 1);
          } else {
            s := s.(consecutive := s.consecutive + 1);
          }
        } else if sq.cell == Empty {
          if s.consecutive == 0 {
            s := s.(open := true);
            break;
          } else {
            s := s.(gap := true);
          }
        } else {
          break;
        }
        i := i + 1;
      }
    }

    /** evaluateDirectionalThreat: both sides scanned, then the tier table
        (DirectionalThreatValues shows which values it can take). */
    method EvaluateDirectionalThreat(row: int, col: int, dir: Dir, symbol: Mark) returns (threatValue: int)
      requires Valid()
      ensures threatValue == DirectionalThreat(Cells(), row, col, dir, symbol)
    {
      var forward := ScanOneSide(row, col, dir, true, symbol);
      var backward := ScanOneSide(row, col, dir, false, symbol);
      var consecutive := 1 + forward.consecutive + backward.consecutive;
      var openEnds := (if forward.open then 1 else 0) + (if backward.open then 1 else 0);
      var gaps := forward.gaps + backward.gaps;
      threatValue := ThreatTier(consecutive, openEnds, gaps);
    }

    /** evaluateThreatLevel, times 100: two points for each direction worth
        at least 90, one for each worth at least 50, plus the best such value. */
    method EvaluateThreatLevel(row: int, col: int, symbol: Mark) returns (level: int)
      requires Valid()
      ensures level == ThreatLevel(Cells(), row, col, symbol)
    {
      ghost var g := Cells();
      var threatCount, maxThreatValue := 0, 0;
      for di := 0 to |Directions|
        invariant (threatCount, maxThreatValue) == ThreatLevelParts(g, row, col, symbol, di)
      {
        var threatValue := EvaluateDirectionalThreat(row, col, Directions[di], symbol);
        var parts := Tally((threatCount, maxThreatValue), threatValue);
        threatCount, maxThreatValue := parts.0, parts.1;
      }
      level := threatCount * 100 + maxThreatValue;
    }

    /** One direction of evaluateDirectionalPatterns' pair: the run of
        `symbol` up to five cells away, and whether it stops at an empty cell. */
    method PatternSide(row: int, col: int, dir: Dir, forward: bool, symbol: Cell) returns (n: int, open: int)
      requires Valid()
      ensures n == Ray(Cells(), row, col, dir, forward, symbol, 5)
      ensures open == B2I(SideOpen5(Cells(), row, col, dir, forward, symbol))
    {
      n := RunLength(row, col, dir, forward, symbol, 5);
      open := 0;
      if n < 5 {
        var next := Look(row, col, dir, Off(forward, n + 1));
        if next == On(Empty) {
          open := 1;
        }
      }
    }

    /** The line through (row, col) as evaluateDirectionalPatterns measures it
        once the trial stone is down: its length and its open ends. */
    method LineRuns(row: int, col: int, dir: Dir, symbol: Cell) returns (maxConsecutive: int, openEnds: int)
      requires Valid()
      ensures (maxConsecutive, openEnds) == PatternRuns(Cells(), row, col, dir, symbol)
    {
      var forwardRun, forwardOpen := PatternSide(row, col, dir, true, symbol);
      var backwardRun, backwardOpen := PatternSide(row, col, dir, false, symbol);
      maxConsecutive := 1 + forwardRun + backwardRun;
      openEnds := forwardOpen + backwardOpen;
      PatternRunsOfSides(Cells(), row, col, dir, symbol, forwardRun, forwardOpen, backwardRun, backwardOpen);
    }

    /** The first half of evaluateDirectionalPatterns: with `symbol` placed at
        (row, col) for the trial, the length of the line through it (up to
        five a side) and its open ends; the cell gets its original content back. */
    method PlacedRuns(row: int, col: int, dir: Dir, symbol: Cell, ghost g: Grid) returns (maxConsecutive: int, openEnds: int)
      requires Valid() && InBounds(row, col) && g == Cells()
      modifies board
      ensures unchanged(board)
      ensures (maxConsecutive, openEnds) == PatternRuns(Place(g, row, col, symbol), row, col, dir, symbol)
    {
      var originalValue := board[row, col];
      ghost var placed := Place(g, row, col, symbol);
      board[row, col] := symbol;
      SnapshotIs(board, placed);
      maxConsecutive, openEnds := LineRuns(row, col, dir, symbol);
      board[row, col] := originalValue;
    }

    /** evaluateDirectionalPatterns for the pair (dir, opposite of dir): the
        trial line scored by the table, and its length plus open ends as
        the threat level. */
    method EvaluateDirectionalPatterns(row: int, col: int, dir: Dir, symbol: Cell) returns (r: PatternEval)
      requires Valid() && InBounds(row, col)
      modifies board
      ensures unchanged(board)
      ensures r == DirectionalPatterns(Place(Cells(), row, col, symbol), row, col, dir, symbol)
    {
      var maxConsecutive, openEnds := PlacedRuns(row, col, dir, symbol, Cells());
      var score := PatternScore(maxConsecutive, openEnds);
      var threatLevel := maxConsecutive;
      if openEnds > 0 {
        threatLevel := threatLevel + openEnds;
      }
      r := PatternEval(score, threatLevel);
    }

    /** The first half of detectThreatInDirection: the on-board cells at
        offsets -4 .. +4 written as a string ('.' empty, the symbol's letter
        for its own stones, Blocked for anything else). */
    method BuildLine(row: int, col: int, dir: Dir, symbol: Mark) returns (lineStr: string)
      requires Valid()
      ensures lineStr == PatternLine(Cells(), row, col, dir, symbol)
    {
      ghost var g := Cells();
      ghost var cells: seq<Cell> := [];
      lineStr := [];
      for i := -4 to 5
        invariant cells == LineCellsUpTo(g, row, col, dir, i)
        invariant lineStr == EncodeLine(cells, symbol, Blocked)
      {
        var sq := Look(row, col, dir, i);
        if sq.On? {
          EncodeLineAppend(cells, [sq.cell], symbol, Blocked);
          cells := cells + [sq.cell];
          lineStr := lineStr + [Encode(sq.cell, symbol, Blocked)];
        }
      }
    }

    /** detectThreatInDirection: the line string searched for the seven
        threat patterns in order. */
    method DetectThreatInDirection(row: int, col: int, dir: Dir, symbol: Mark, ghost g: Grid) returns (threat: bool)
      requires Valid() && g == Cells()
      ensures threat == PatternThreat(g, row, col, dir, symbol)
    {
      var lineStr := BuildLine(row, col, dir, symbol);
      threat := MatchThreatPatterns(lineStr, symbol);
    }

    /** The second half of detectThreatInDirection: the threat patterns tried
        in order against the line string, stopping at the first match. */
    method MatchThreatPatterns(lineStr: string, symbol: Mark) returns (threat: bool)
      ensures threat == LineThreat(lineStr, symbol)
    {
      var patterns := ThreatPatterns(symbol);
      for k := 0 to |patterns|
        invariant forall j :: 0 <= j < k ==> !Contains(lineStr, patterns[j])
      {
        if Contains(lineStr, patterns[k]) {
          return true;
        }
      }
      return false;
    }

    /** detectAdvancedFork: threats (by pattern) in at least two directions,
        stopping at the second. */
    method DetectAdvancedFork(row: int, col: int, symbol: Mark) returns (fork: bool)
      requires Valid()
      ensures fork == AdvancedForkAt(Cells(), row, col, symbol)
    {
      ghost var g := Cells();
      var threatCount := 0;
      for di := 0 to |Directions|
        invariant threatCount == PatternThreatCount(g, row, col, symbol, di) && threatCount < 2
      {
        var threat := DetectThreatInDirection(row, col, Directions[di], symbol, g);
        PatternThreatCountNext(g, row, col, symbol, di, threat);
        if threat {
          threatCount := threatCount + 1;
          if threatCount >= 2 {
            PatternThreatCountMonotone(g, row, col, symbol, di + 1, |Directions|);
            return true;
          }
        }
      }
      return false;
    }

    // -------------------------------------------------------------------
    // Move finders

    /** The body of findWinningMove's loop for one cell: an empty cell gets
        `symbol` for a trial checkWin (checkOnly) and is emptied again. */
    method TrialWin(row: int, col: int, symbol: Mark) returns (win: bool)
      requires Valid() && InBounds(row, col)
      modifies board, this`winningCells
      ensures Valid() && unchanged(board) && winningCells == old(winningCells)
      ensures win <==> Wins(Cells(), Pos(row, col), symbol)
    {
      if board[row, col] != Empty {
        return false;
      }
      ghost var g := Cells();
      board[row, col] := symbol;
      SnapshotIs(board, Place(g, row, col, symbol));
      win := CheckWin(row, col, true);
      board[row, col] := Empty;
      SnapshotIs(board, g);
    }

    /** findWinningMove: the empty cells are tried in row-major order and
        the first winning cell is returned. */
    method FindWinningMove(symbol: Mark) returns (move: Option<Pos>)
      requires Valid()
      modifies board, this`winningCells
      ensures Valid() && unchanged(board) && winningCells == old(winningCells)
      ensures move.None? ==> forall p :: !Wins(Cells(), p, symbol)
      ensures move.Some? ==>
        Wins(Cells(), move.value, symbol) && forall q :: Before(q, move.value) ==> !Wins(Cells(), q, symbol)
    {
      for row := 0 to Size
        invariant Valid() && unchanged(board) && winningCells == old(winningCells)
        invariant forall q: Pos :: q.row < row ==> !Wins(Cells(), q, symbol)
      {
        for col := 0 to Size
          invariant Valid() && unchanged(board) && winningCells == old(winningCells)
          invariant forall q :: Before(q, Pos(row, col)) ==> !Wins(Cells(), q, symbol)
        {
          var isWinning := TrialWin(row, col, symbol);
          if isWinning {
            return Some(Pos(row, col));
          }
        }
      }
      return None;
    }

    /** makeHardAIMove up to its strategic search: the AI's own winning cell
        first, else the cell that blocks the player's win, else the search. */
    method MakeHardAIMove() returns (r: HardMove)
      requires Valid()
      modifies board, this`winningCells
      ensures Valid() && unchanged(board) && winningCells == old(winningCells)
      ensures r.Win? <==> exists p :: Wins(Cells(), p, aiSymbol)
      ensures r.Win? ==>
        Wins(Cells(), r.pos, aiSymbol) && forall q :: Before(q, r.pos) ==> !Wins(Cells(), q, aiSymbol)
      ensures r.Block? <==>
        (forall p :: !Wins(Cells(), p, aiSymbol)) && exists p :: Wins(Cells(), p, playerSymbol)
      ensures r.Block? ==>
        Wins(Cells(), r.pos, playerSymbol) && forall q :: Before(q, r.pos) ==> !Wins(Cells(), q, playerSymbol)
    {
      ghost var g := Cells();
      var winMove := FindWinningMove(aiSymbol);
      if winMove.Some? {
        assert Wins(g, winMove.value, aiSymbol);
        return Win(winMove.value);
      }
      assert Cells() == g;
      var blockMove := FindWinningMove(playerSymbol);
      assert Cells() == g;
      if blockMove.Some? {
        assert forall p :: !Wins(g, p, aiSymbol);
        assert Wins(g, blockMove.value, playerSymbol);
        return Block(blockMove.value);
      }
      return Strategic;
    }

    /** The body of findAdvancedForkToBlock's loop for one cell: an empty
        cell gets the player's symbol for a trial evaluateThreatLevel and is
        emptied again; an occupied cell is skipped (level 0, never listed). */
    method TrialLevel(row: int, col: int, symbol: Mark, ghost g: Grid) returns (level: int)
      requires Valid() && InBounds(row, col) && g == Cells()
      modifies board
      ensures unchanged(board)
      ensures level == LevelAt(g, Pos(row, col), symbol)
    {
      if board[row, col] != Empty {
        return 0;
      }
      assert Vacant(g, Pos(row, col));
      board[row, col] := symbol;
      SnapshotIs(board, Place(g, row, col, symbol));
      level := EvaluateThreatLevel(row, col, symbol);
      assert level == LevelAt(g, Pos(row, col), symbol);
      board[row, col] := Empty;
    }

    /** One row of findAdvancedForkToBlock's scan: the cells of row `row`
        whose level reaches two (times 100) appended, with their levels. */
    method ThreatRow(row: int, symbol: Mark, threats: seq<Threatened>, ghost g: Grid) returns (threats': seq<Threatened>)
      requires Valid() && 0 <= row < Size && g == Cells()
      requires threats == ThreatsBefore(g, symbol, row, 0)
      modifies board
      ensures unchanged(board)
      ensures threats' == ThreatsBefore(g, symbol, row + 1, 0)
    {
      threats' := threats;
      for col := 0 to Size
        invariant unchanged(board)
        invariant threats' == ThreatsBefore(g, symbol, row, col)
      {
        var threatLevel := TrialLevel(row, col, symbol, g);
        ThreatsBeforeNext(g, symbol, row, col, threatLevel);
        threats' := threats' + Entry(Pos(row, col), threatLevel);
      }
    }

    /** The scan of findAdvancedForkToBlock: every cell whose level for the
        player reaches two (times 100), with its level, in row-major order. */
    method ScanThreats(symbol: Mark) returns (potentialThreats: seq<Threatened>)
      requires Valid()
      modifies board
      ensures unchanged(board)
      ensures potentialThreats == ThreatsBefore(Cells(), symbol, Size, 0)
    {
      ghost var g := Cells();
      potentialThreats := [];
      for row := 0 to Size
        invariant unchanged(board)
        invariant potentialThreats == ThreatsBefore(g, symbol, row, 0)
      {
        potentialThreats := ThreatRow(row, symbol, potentialThreats, g);
      }
    }

    /** findAdvancedForkToBlock: the empty cells where the player's trial
        move reaches threat level two, the most serious first (the first in
        row-major order among equals); none when no cell reaches two. */
    method FindAdvancedForkToBlock() returns (r: Option<Threatened>)
      requires Valid()
      modifies board
      ensures unchanged(board)
      ensures r.None? <==> NothingToBlock(Cells(), playerSymbol)
      ensures r.Some? ==> MostSerious(Cells(), playerSymbol, r.value)
    {
      var potentialThreats := ScanThreats(playerSymbol);
      NothingToBlockMeaning(Cells(), playerSymbol, potentialThreats);
      if |potentialThreats| > 0 {
        var best := FirstMaxIndex(potentialThreats);
        BlockChoiceMeaning(Cells(), playerSymbol, potentialThreats, best);
        return Some(potentialThreats[best]);
      }
      return None;
    }

    /** The innermost loop of the candidate search around the stone at
        (row, col): the empty cells of row newRow from column col - proximity
        to col + proximity are added to the set. */
    method AddNeighbourRow(newRow: int, col: int, proximity: int, candidates: seq<Pos>) returns (candidates': seq<Pos>)
      requires Valid() && 0 <= proximity && Distinct(candidates)
      ensures Distinct(candidates') && |candidates| <= |candidates'| && candidates'[..|candidates|] == candidates
      ensures forall p :: p in candidates' <==>
        p in candidates || (Vacant(Cells(), p) && p.row == newRow && -proximity <= p.col - col <= proximity)
    {
      candidates' := candidates;
      for dc := -proximity to proximity + 1
        invariant Distinct(candidates') && |candidates| <= |candidates'| && candidates'[..|candidates|] == candidates
        invariant forall p :: p in candidates' <==>
          p in candidates || (Vacant(Cells(), p) && p.row == newRow && -proximity <= p.col - col < dc)
      {
        var newCol := col + dc;
        if InBounds(newRow, newCol) && board[newRow, newCol] == Empty {
          candidates' := AddCell(candidates', Pos(newRow, newCol));
        }
      }
    }

    /** The two inner loops of the candidate search: the empty cells within
        `proximity` of the stone at (row, col) are added to the set. */
    method AddNeighbours(row: int, col: int, proximity: int, candidates: seq<Pos>) returns (candidates': seq<Pos>)
      requires Valid() && InBounds(row, col) && board[row, col] != Empty && 0 <= proximity && Distinct(candidates)
      ensures Distinct(candidates') && |candidates| <= |candidates'| && candidates'[..|candidates|] == candidates
      ensures forall p :: p in candidates' <==>
        p in candidates || (Vacant(Cells(), p) && Near(Cells(), p, Pos(row, col), proximity))
    {
      candidates' := candidates;
      for dr := -proximity to proximity + 1
        invariant Distinct(candidates') && |candidates| <= |candidates'| && candidates'[..|candidates|] == candidates
        invariant forall p :: p in candidates' <==>
          p in candidates || (Vacant(Cells(), p) && -proximity <= p.row - row < dr && -proximity <= p.col - col <= proximity)
      {
        candidates' := AddNeighbourRow(row + dr, col, proximity, candidates');
      }
    }

    /** One row of the candidate search: every stone of row `row`, in column
        order, adds its empty neighbours. */
    method NearRow(row: int, proximity: int, candidates: seq<Pos>) returns (candidates': seq<Pos>)
      requires Valid() && 0 <= row < Size && 0 <= proximity && Distinct(candidates)
      requires forall p :: p in candidates <==> Vacant(Cells(), p) && NearBefore(Cells(), p, proximity, Pos(row, 0))
      ensures Distinct(candidates') && |candidates| <= |candidates'| && candidates'[..|candidates|] == candidates
      ensures forall p :: p in candidates' <==> Vacant(Cells(), p) && NearBefore(Cells(), p, proximity, Pos(row + 1, 0))
    {
      ghost var g := Cells();
      candidates' := candidates;
      for col := 0 to Size
        invariant Distinct(candidates') && |candidates| <= |candidates'| && candidates'[..|candidates|] == candidates
        invariant forall p :: p in candidates' <==> Vacant(g, p) && NearBefore(g, p, proximity, Pos(row, col))
      {
        NearBeforeNext(g, proximity, row, col);
        if board[row, col] != Empty {
          candidates' := AddNeighbours(row, col, proximity, candidates');
        }
      }
      NearBeforeRowEnd(g, proximity, row);
    }

    /** The first pass of findCandidateMoves and findExpandedCandidateMoves:
        the set of empty cells within `proximity` of a stone, in the order
        the scan first adds them. */
    method NearbyEmptyCells(proximity: int) returns (candidates: seq<Pos>)
      requires Valid() && 0 <= proximity
      ensures Distinct(candidates)
      ensures forall p :: p in candidates <==> Candidate(Cells(), p, proximity)
    {
      ghost var g := Cells();
      candidates := [];
      NearBeforeRowEnd(g, proximity, 0);
      for row := 0 to Size
        invariant Distinct(candidates)
        invariant forall p :: p in candidates <==> Vacant(g, p) && NearBefore(g, p, proximity, Pos(row, 0))
      {
        candidates := NearRow(row, proximity, candidates);
      }
      NearBeforeRowEnd(g, proximity, Size);
    }

    /** findCandidateMoves: every empty cell within two rows and columns of
        a stone, each once; none on an empty board. */
    method FindCandidateMoves() returns (result: seq<Pos>)
      requires Valid()
      ensures Distinct(result)
      ensures forall p :: p in result <==> Candidate(Cells(), p, 2)
    {
      result := NearbyEmptyCells(2);
    }

    /** The second pass of findExpandedCandidateMoves: the empty cells of
        rows and columns 7 .. 12 added to the set. */
    method AddCentre(candidates: seq<Pos>) returns (candidates': seq<Pos>)
      requires Valid() && Distinct(candidates)
      ensures Distinct(candidates') && |candidates| <= |candidates'| && candidates'[..|candidates|] == candidates
      ensures forall p :: p in candidates' <==> p in candidates || CentreVacant(Cells(), p)
    {
      candidates' := candidates;
      for row := 7 to 13
        invariant Distinct(candidates') && |candidates| <= |candidates'| && candidates'[..|candidates|] == candidates
        invariant forall p :: p in candidates' <==> p in candidates || (CentreVacant(Cells(), p) && p.row < row)
      {
        for col := 7 to 13
          invariant Distinct(candidates') && |candidates| <= |candidates'| && candidates'[..|candidates|] == candidates
          invariant forall p :: p in candidates' <==>
            p in candidates || (CentreVacant(Cells(), p) && (p.row < row || (p.row == row && p.col < col)))
        {
          if board[row, col] == Empty {
            candidates' := AddCell(candidates', Pos(row, col));
          }
        }
      }
    }

    /** findExpandedCandidateMoves: the empty cells within three of a stone
        (`near`, in scan order); when there are fewer than ten of them, the
        empty centre cells follow. */
    method FindExpandedCandidateMoves() returns (result: seq<Pos>, ghost near: seq<Pos>)
      requires Valid()
      ensures Distinct(near) && forall p :: p in near <==> Candidate(Cells(), p, 3)
      ensures Distinct(result) && |near| <= |result| && result[..|near|] == near
      ensures forall p :: p in result <==> p in near || (|near| < 10 && CentreVacant(Cells(), p))
    {
      var candidates := NearbyEmptyCells(3);
      near := candidates;
      if |candidates| < 10 {
        candidates := AddCentre(candidates);
      }
      result := candidates;
    }

    /** isBoardMostlyEmpty: at most eight stones on the board (the count
        stops at the ninth). */
    method IsBoardMostlyEmpty() returns (mostlyEmpty: bool)
      requires Valid()
      ensures mostlyEmpty <==> OccupiedCount(Cells()) <= 8
    {
      ghost var g := Cells();
      var filledCount := 0;
      var threshold := 8;
      for row := 0 to Size
        invariant filledCount == OccupiedBefore(g, row, 0) <= threshold
      {
        for col := 0 to Size
          invariant filledCount == OccupiedBefore(g, row, col) <= threshold
        {
          if board[row, col] != Empty {
            filledCount := filledCount + 1;
            if filledCount > threshold {
              OccupiedMonotone(g, row, col + 1, Size, 0);
              return false;
            }
          }
        }
      }
      return true;
    }

    /** The body of findPotentialFork's loop for one cell: an empty cell gets
        `symbol` for a trial detectAdvancedFork and is emptied again. */
    method TrialFork(row: int, col: int, symbol: Mark, ghost g: Grid) returns (fork: bool)
      requires Valid() && InBounds(row, col) && g == Cells()
      modifies board
      ensures unchanged(board)
      ensures fork == ForkCell(g, Pos(row, col), symbol)
    {
      if board[row, col] != Empty {
        return false;
      }
      assert Vacant(g, Pos(row, col));
      fork := PlacedFork(row, col, symbol, g);
    }

    /** detectAdvancedFork with `symbol` placed in the empty cell (row, col),
        which is emptied again afterwards. */
    method PlacedFork(row: int, col: int, symbol: Mark, ghost g: Grid) returns (fork: bool)
      requires Valid() && InBounds(row, col) && g == Cells() && board[row, col] == Empty
      modifies board
      ensures unchanged(board)
      ensures fork == AdvancedForkAt(Place(g, row, col, symbol), row, col, symbol)
    {
      board[row, col] := symbol;
      SnapshotIs(board, Place(g, row, col, symbol));
      fork := DetectAdvancedFork(row, col, symbol);
      board[row, col] := Empty;
    }

    /** One row of findPotentialFork's scan: the forking cells of row `row`
        appended, in column order, to those of the rows above. */
    method ForkRow(symbol: Mark, row: int, forks: seq<Pos>, ghost g: Grid) returns (forks': seq<Pos>)
      requires Valid() && 0 <= row < Size && g == Cells()
      requires forks == ForksBefore(g, symbol, row, 0)
      modifies board
      ensures unchanged(board)
      ensures forks' == ForksBefore(g, symbol, row + 1, 0)
    {
      forks' := forks;
      for col := 0 to Size
        invariant unchanged(board)
        invariant forks' == ForksBefore(g, symbol, row, col)
      {
        var fork := TrialFork(row, col, symbol, g);
        ForksBeforeNext(g, symbol, row, col, fork);
        forks' := forks' + Kept(Pos(row, col), fork);
      }
    }

    /** findPotentialFork: the empty cells that fork, in row-major order; the
        one at index `pick` (the engine draws it at random) is returned. */
    method FindPotentialFork(symbol: Mark, pick: nat) returns (move: Option<Pos>, ghost potentialForks: seq<Pos>)
      requires Valid()
      modifies board
      ensures unchanged(board)
      ensures RowMajor(potentialForks)
      ensures forall p :: p in potentialForks <==> ForkCell(Cells(), p, symbol)
      ensures move.None? <==> potentialForks == []
      ensures move.Some? ==> move.value == potentialForks[pick % |potentialForks|]
    {
      ghost var g := Cells();
      var forks: seq<Pos> := [];
      for row := 0 to Size
        invariant unchanged(board)
        invariant forks == ForksBefore(g, symbol, row, 0)
      {
        forks := ForkRow(symbol, row, forks, g);
      }
      ForksMeaning(g, symbol, forks);
      potentialForks := forks;
      if |forks| > 0 {
        return Some(forks[pick % |forks|]), potentialForks;
      }
      return None, potentialForks;
    }
  }
}
