/** Specifications of the AI's move finders: which empty cells win, fork or
    need blocking after a trial placement, how many cells are occupied, and
    which empty cells lie near the stones already played. */
module Moves {
  import opened Board
  import opened Patterns

  predicate Vacant(g: Grid, p: Pos)
  {
    OnBoard(p) && At(g, p) == Empty
  }

  /** Playing `s` in the empty cell p completes a run of five through p. */
  ghost predicate Wins(g: Grid, p: Pos, s: Mark)
  {
    Vacant(g, p) && HasRun(Place(g, p.row, p.col, s), p.row, p.col)
  }

  /** Playing `s` in the empty cell p makes pattern threats in two directions. */
  predicate ForkCell(g: Grid, p: Pos, s: Mark)
  {
    Vacant(g, p) && AdvancedForkAt(Place(g, p.row, p.col, s), p.row, p.col, s)
  }

  /** evaluateThreatLevel (times 100) of `s` played in the empty cell p. */
  function BlockLevel(g: Grid, p: Pos, s: Mark): int
    requires OnBoard(p)
  {
    ThreatLevel(Place(g, p.row, p.col, s), p.row, p.col, s)
  }

  /** The cells of `ps` appear in strict row-major order (so no cell twice). */
  predicate RowMajor(ps: seq<Pos>)
  {
    forall i, j :: 0 <= i < j < |ps| ==> Before(ps[i], ps[j])
  }

  predicate Distinct(ps: seq<Pos>)
  {
    forall i, j :: 0 <= i < j < |ps| ==> ps[i] != ps[j]
  }

  /** A point the engine's nested `row`/`col` loops reach: (row, col) with
      col up to Size inside a row, and (Size, 0) once every row is done. The
      cells scanned so far are those Before Pos(row, col). */
  predicate ScanPoint(row: int, col: int)
  {
    (0 <= row < Size && 0 <= col <= Size) || (row == Size && col == 0)
  }

  /** (row, col) comes no later than (row', col') in the scan. */
  predicate NoLater(row: int, col: int, row': int, col': int)
  {
    row < row' || (row == row' && col <= col')
  }

  // ---------------------------------------------------------------------
  // isBoardMostlyEmpty

  /** The number of occupied cells the scan has passed on reaching (row, col). */
  function OccupiedBefore(g: Grid, row: int, col: int): nat
    requires ScanPoint(row, col)
    decreases row, col
  {
    if col == 0 then (if row == 0 then 0 else OccupiedBefore(g, row - 1, Size))
    else OccupiedBefore(g, row, col - 1) + (if g[row][col - 1] != Empty then 1 else 0)
  }

  /** The number of stones on the board. */
  function OccupiedCount(g: Grid): nat
  {
    OccupiedBefore(g, Size, 0)
  }

  /** Scanning further never counts fewer stones. */
  lemma {:induction false} OccupiedMonotone(g: Grid, row: int, col: int, row': int, col': int)
    requires ScanPoint(row, col) && ScanPoint(row', col') && NoLater(row, col, row', col')
    ensures OccupiedBefore(g, row, col) <= OccupiedBefore(g, row', col')
    decreases row', col'
  {
    if row == row' && col == col' {
    } else if col' == 0 {
      OccupiedMonotone(g, row, col, row' - 1, Size);
    } else {
      OccupiedMonotone(g, row, col, row', col' - 1);
    }
  }

  /** No stone before (row, col) exactly when the count is zero. */
  lemma {:induction false} OccupiedBeforeZero(g: Grid, row: int, col: int)
    requires ScanPoint(row, col)
    ensures OccupiedBefore(g, row, col) == 0 <==>
      forall p :: OnBoard(p) && Before(p, Pos(row, col)) ==> At(g, p) == Empty
    decreases row, col
  {
    if col == 0 && row > 0 {
      OccupiedBeforeZero(g, row - 1, Size);
      assert forall p :: OnBoard(p) ==> (Before(p, Pos(row, 0)) <==> Before(p, Pos(row - 1, Size)));
    } else if col > 0 {
      OccupiedBeforeZero(g, row, col - 1);
      assert forall p :: Before(p, Pos(row, col)) <==> Before(p, Pos(row, col - 1)) || p == Pos(row, col - 1);
      assert At(g, Pos(row, col - 1)) == g[row][col - 1];
    }
  }

  /** The board holds no stone exactly when its stone count is zero. */
  lemma EmptyIffNoStones(g: Grid)
    ensures OccupiedCount(g) == 0 <==> forall p :: OnBoard(p) ==> At(g, p) == Empty
  {
    OccupiedBeforeZero(g, Size, 0);
  }

  // ---------------------------------------------------------------------
  // The row-major scans of findPotentialFork and findAdvancedForkToBlock

  /** The cell p as a one-element list when it is kept, else nothing. */
  function Kept(p: Pos, kept: bool): seq<Pos>
  {
    if kept then [p] else []
  }

  /** The cells a row-major scan has passed on reaching (row, col) that
      satisfy `keep`, in scan order. */
  function CellsBefore(keep: Pos -> bool, row: int, col: int): seq<Pos>
    requires ScanPoint(row, col)
    decreases row, col
  {
    if col == 0 then (if row == 0 then [] else CellsBefore(keep, row - 1, Size))
    else CellsBefore(keep, row, col - 1) + Kept(Pos(row, col - 1), keep(Pos(row, col - 1)))
  }

  /** The list holds every on-board cell before (row, col) that satisfies
      `keep`, each once, in row-major order. */
  lemma {:induction false} CellsBeforeMeaning(keep: Pos -> bool, row: int, col: int, cs: seq<Pos>)
    requires ScanPoint(row, col) && cs == CellsBefore(keep, row, col)
    ensures forall i :: 0 <= i < |cs| ==> OnBoard(cs[i]) && Before(cs[i], Pos(row, col))
    ensures RowMajor(cs)
    ensures forall p :: p in cs <==> OnBoard(p) && keep(p) && Before(p, Pos(row, col))
    decreases row, col
  {
    if col == 0 && row > 0 {
      CellsBeforeMeaning(keep, row - 1, Size, cs);
      assert forall p :: OnBoard(p) ==> (Before(p, Pos(row, 0)) <==> Before(p, Pos(row - 1, Size)));
    } else if col > 0 {
      var cs', q := CellsBefore(keep, row, col - 1), Pos(row, col - 1);
      CellsBeforeMeaning(keep, row, col - 1, cs');
      assert forall p :: Before(p, Pos(row, col)) <==> Before(p, q) || p == q;
      if keep(q) {
        assert cs == cs' + [q];
        forall i, j | 0 <= i < j < |cs|
          ensures Before(cs[i], cs[j])
        {
          assert cs[i] == cs'[i];
          if j < |cs'| {
            assert cs[j] == cs'[j];
          }
        }
      } else {
        assert cs == cs';
      }
    }
  }

  /** findPotentialFork's test as a function of the cell. */
  function ForkCells(g: Grid, s: Mark): Pos -> bool
  {
    p => ForkCell(g, p, s)
  }

  /** findPotentialFork's list on reaching (row, col): the cells passed so
      far where `s` forks, in scan order. */
  function ForksBefore(g: Grid, s: Mark, row: int, col: int): seq<Pos>
    requires ScanPoint(row, col)
  {
    CellsBefore(ForkCells(g, s), row, col)
  }

  /** One step of findPotentialFork's scan: the cell (row, col) is listed
      when `s` forks there; the end of a row is the start of the next. */
  lemma ForksBeforeNext(g: Grid, s: Mark, row: int, col: int, fork: bool)
    requires InBounds(row, col) && fork == ForkCell(g, Pos(row, col), s)
    ensures ForksBefore(g, s, row, col + 1) == ForksBefore(g, s, row, col) + Kept(Pos(row, col), fork)
    ensures col + 1 == Size ==> ForksBefore(g, s, row + 1, 0) == ForksBefore(g, s, row, col + 1)
  {
    assert ForkCells(g, s)(Pos(row, col)) == fork;
  }

  /** findPotentialFork's whole-board list holds exactly the cells where
      `s` forks, in row-major order. */
  lemma ForksMeaning(g: Grid, s: Mark, cs: seq<Pos>)
    requires cs == ForksBefore(g, s, Size, 0)
    ensures RowMajor(cs)
    ensures forall p :: p in cs <==> ForkCell(g, p, s)
  {
    var keep := ForkCells(g, s);
    CellsBeforeMeaning(keep, Size, 0, cs);
    forall p
      ensures p in cs <==> ForkCell(g, p, s)
    {
      assert keep(p) == ForkCell(g, p, s);
      if ForkCell(g, p, s) {
        assert Before(p, Pos(Size, 0));
      }
    }
  }

  /** An entry of findAdvancedForkToBlock's list: a cell and the threat
      level (times 100) the player would reach by playing there. */
  datatype Threatened = Threatened(pos: Pos, threatLevel: int)

  /** The level at which findAdvancedForkToBlock lists a cell: 2, times 100. */
  const ForkLevel: int := 200

  /** What reaching ForkLevel means: one critical direction (90 or more),
      or two different significant directions (50 or more each). */
  lemma {:induction false} ForkLevelMeaning(g: Grid, row: int, col: int, m: Mark)
    ensures ThreatLevel(g, row, col, m) >= ForkLevel <==>
      (exists d: Dir :: DirectionalThreat(g, row, col, d, m) >= 90)
      || (exists d1: Dir, d2: Dir :: d1 != d2
            && DirectionalThreat(g, row, col, d1, m) >= 50 && DirectionalThreat(g, row, col, d2, m) >= 50)
  {
    ThreatLevelPartsBounds(g, row, col, m, |Directions|);
    ThreatLevelPartsCount(g, row, col, m, |Directions|);
    var h, v := DirectionalThreat(g, row, col, Horizontal, m), DirectionalThreat(g, row, col, Vertical, m);
    var a, b := DirectionalThreat(g, row, col, Diagonal, m), DirectionalThreat(g, row, col, AntiDiagonal, m);
    var count := ThreatLevelParts(g, row, col, m, |Directions|).0;
    assert count == Weight(h) + Weight(v) + Weight(a) + Weight(b);
    if count >= 2 {
      if h >= 90 {
        assert DirectionalThreat(g, row, col, Horizontal, m) >= 90;
      } else if v >= 90 {
        assert DirectionalThreat(g, row, col, Vertical, m) >= 90;
      } else if a >= 90 {
        assert DirectionalThreat(g, row, col, Diagonal, m) >= 90;
      } else if b >= 90 {
        assert DirectionalThreat(g, row, col, AntiDiagonal, m) >= 90;
      } else if h >= 50 && v >= 50 {
        assert Horizontal != Vertical;
      } else if h >= 50 && a >= 50 {
        assert Horizontal != Diagonal;
      } else if h >= 50 && b >= 50 {
        assert Horizontal != AntiDiagonal;
      } else if v >= 50 && a >= 50 {
        assert Vertical != Diagonal;
      } else if v >= 50 && b >= 50 {
        assert Vertical != AntiDiagonal;
      } else {
        assert Diagonal != AntiDiagonal;
      }
    } else {
      forall d: Dir ensures DirectionalThreat(g, row, col, d, m) < 90 {
        match d
        case Horizontal => case Vertical => case Diagonal => case AntiDiagonal =>
      }
      forall d1: Dir, d2: Dir | d1 != d2 && DirectionalThreat(g, row, col, d1, m) >= 50
        ensures DirectionalThreat(g, row, col, d2, m) < 50
      {
        match d1
        case Horizontal => case Vertical => case Diagonal => case AntiDiagonal =>
      }
    }
  }

  /** Since a direction only ever scores 0, 20, 60 or 100, ForkLevel is
      reached exactly by four stones in one direction (100) or by two
      different directions scoring 60 (three stones with one open end). */
  lemma ForkLevelCases(g: Grid, row: int, col: int, m: Mark)
    ensures ThreatLevel(g, row, col, m) >= ForkLevel <==>
      (exists d: Dir :: DirectionalThreat(g, row, col, d, m) == 100)
      || (exists d1: Dir, d2: Dir :: d1 != d2
            && DirectionalThreat(g, row, col, d1, m) == 60 && DirectionalThreat(g, row, col, d2, m) == 60)
  {
    ForkLevelMeaning(g, row, col, m);
    forall d: Dir ensures DirectionalThreat(g, row, col, d, m) in {0, 20, 60, 100} {
      DirectionalThreatValues(g, row, col, d, m);
    }
  }

  /** The entry findAdvancedForkToBlock pushes for a cell of level v: one
      when v reaches ForkLevel, none otherwise. */
  function Entry(p: Pos, v: int): seq<Threatened>
  {
    if v >= ForkLevel then [Threatened(p, v)] else []
  }

  /** The cells a row-major scan has passed on reaching (row, col) whose
      level reaches ForkLevel, each with its level, in scan order. */
  function LevelsBefore(level: Pos -> int, row: int, col: int): seq<Threatened>
    requires ScanPoint(row, col)
    decreases row, col
  {
    if col == 0 then (if row == 0 then [] else LevelsBefore(level, row - 1, Size))
    else LevelsBefore(level, row, col - 1) + Entry(Pos(row, col - 1), level(Pos(row, col - 1)))
  }

  /** Every entry is an on-board cell before (row, col) with its own level,
      at least ForkLevel; the entries are in row-major order; every such
      cell has an entry. */
  lemma {:induction false} LevelsBeforeMeaning(level: Pos -> int, row: int, col: int, ts: seq<Threatened>)
    requires ScanPoint(row, col) && ts == LevelsBefore(level, row, col)
    ensures forall i :: 0 <= i < |ts| ==> OnBoard(ts[i].pos) && Before(ts[i].pos, Pos(row, col))
    ensures forall i :: 0 <= i < |ts| ==> ts[i].threatLevel == level(ts[i].pos) >= ForkLevel
    ensures forall i, j :: 0 <= i < j < |ts| ==> Before(ts[i].pos, ts[j].pos)
    ensures forall p :: OnBoard(p) && level(p) >= ForkLevel && Before(p, Pos(row, col)) ==> Threatened(p, level(p)) in ts
    decreases row, col
  {
    if col == 0 && row > 0 {
      LevelsBeforeMeaning(level, row - 1, Size, ts);
      assert forall p :: OnBoard(p) ==> (Before(p, Pos(row, 0)) <==> Before(p, Pos(row - 1, Size)));
    } else if col > 0 {
      var ts', q := LevelsBefore(level, row, col - 1), Pos(row, col - 1);
      LevelsBeforeMeaning(level, row, col - 1, ts');
      assert forall p :: Before(p, Pos(row, col)) <==> Before(p, q) || p == q;
      if level(q) >= ForkLevel {
        assert ts == ts' + [Threatened(q, level(q))];
        forall i, j | 0 <= i < j < |ts|
          ensures Before(ts[i].pos, ts[j].pos)
        {
          assert ts[i] == ts'[i];
          if j < |ts'| {
            assert ts[j] == ts'[j];
          }
        }
      } else {
        assert ts == ts';
      }
    }
  }

  /** findAdvancedForkToBlock's level of a cell: BlockLevel for the player on
      an empty cell; an occupied cell is never listed. */
  function LevelAt(g: Grid, p: Pos, s: Mark): int
  {
    if Vacant(g, p) then BlockLevel(g, p, s) else 0
  }

  /** LevelAt as a function of the cell. */
  function BlockLevels(g: Grid, s: Mark): Pos -> int
  {
    p => LevelAt(g, p, s)
  }

  /** findAdvancedForkToBlock's list on reaching (row, col). */
  function ThreatsBefore(g: Grid, s: Mark, row: int, col: int): seq<Threatened>
    requires ScanPoint(row, col)
  {
    LevelsBefore(BlockLevels(g, s), row, col)
  }

  /** One step of findAdvancedForkToBlock's scan: the cell (row, col) gets
      an entry when its level reaches ForkLevel; the end of a row is the
      start of the next. */
  lemma ThreatsBeforeNext(g: Grid, s: Mark, row: int, col: int, v: int)
    requires InBounds(row, col) && v == LevelAt(g, Pos(row, col), s)
    ensures ThreatsBefore(g, s, row, col + 1) == ThreatsBefore(g, s, row, col) + Entry(Pos(row, col), v)
    ensures col + 1 == Size ==> ThreatsBefore(g, s, row + 1, 0) == ThreatsBefore(g, s, row, col + 1)
  {
    assert BlockLevels(g, s)(Pos(row, col)) == v;
  }

  /** `best` indexes the first entry of greatest level: what the stable sort
      by decreasing level followed by taking element 0 selects. */
  predicate FirstMaximum(ts: seq<Threatened>, best: int)
  {
    && 0 <= best < |ts|
    && (forall j :: 0 <= j < |ts| ==> ts[j].threatLevel <= ts[best].threatLevel)
    && (forall j :: 0 <= j < best ==> ts[j].threatLevel < ts[best].threatLevel)
  }

  /** The index that sorting by decreasing level (a stable sort) brings to
      the front: the first entry of greatest level. */
  function FirstMaxIndex(ts: seq<Threatened>): (best: int)
    requires |ts| > 0
    ensures FirstMaximum(ts, best)
    decreases |ts|
  {
    if |ts| == 1 then 0
    else
      var b := FirstMaxIndex(ts[..|ts| - 1]);
      if ts[|ts| - 1].threatLevel > ts[b].threatLevel then |ts| - 1 else b
  }

  /** A list of exactly the on-board cells that reach ForkLevel, with their
      levels, in row-major order: its first entry of greatest level is the
      cell of highest level, and the first such cell in row-major order. */
  lemma FirstMaximumOfLevels(level: Pos -> int, ts: seq<Threatened>, best: int)
    requires FirstMaximum(ts, best)
    requires forall i :: 0 <= i < |ts| ==> OnBoard(ts[i].pos) && ts[i].threatLevel == level(ts[i].pos) >= ForkLevel
    requires forall i, j :: 0 <= i < j < |ts| ==> Before(ts[i].pos, ts[j].pos)
    requires forall p :: OnBoard(p) && level(p) >= ForkLevel ==> Threatened(p, level(p)) in ts
    ensures forall p :: OnBoard(p) ==> level(p) <= ts[best].threatLevel
    ensures forall p :: OnBoard(p) && Before(p, ts[best].pos) ==> level(p) < ts[best].threatLevel
  {
    var t := ts[best];
    forall p | OnBoard(p) && level(p) >= ForkLevel
      ensures level(p) <= t.threatLevel
      ensures Before(p, t.pos) ==> level(p) < t.threatLevel
    {
      var j :| 0 <= j < |ts| && ts[j] == Threatened(p, level(p));
      if best < j {
        assert Before(t.pos, p);
      }
    }
  }

  /** The first entry of greatest level in the whole-board list is the cell of
      highest level on the board, and the first such cell in row-major order. */
  lemma FirstMaximumMeaning(level: Pos -> int, ts: seq<Threatened>, best: int)
    requires ts == LevelsBefore(level, Size, 0) && FirstMaximum(ts, best)
    ensures OnBoard(ts[best].pos) && ts[best].threatLevel == level(ts[best].pos) >= ForkLevel
    ensures forall p :: OnBoard(p) ==> level(p) <= ts[best].threatLevel
    ensures forall p :: OnBoard(p) && Before(p, ts[best].pos) ==> level(p) < ts[best].threatLevel
  {
    LevelsBeforeMeaning(level, Size, 0, ts);
    forall p | OnBoard(p)
      ensures Before(p, Pos(Size, 0))
    {
    }
    FirstMaximumOfLevels(level, ts, best);
  }

  /** The whole-board list is empty exactly when no cell reaches ForkLevel. */
  lemma NoThreatsMeaning(level: Pos -> int, ts: seq<Threatened>)
    requires ts == LevelsBefore(level, Size, 0)
    ensures ts == [] <==> forall p :: OnBoard(p) ==> level(p) < ForkLevel
  {
    LevelsBeforeMeaning(level, Size, 0, ts);
    if ts != [] {
      assert OnBoard(ts[0].pos) && level(ts[0].pos) >= ForkLevel;
    } else {
      forall p | OnBoard(p)
        ensures level(p) < ForkLevel
      {
        assert Before(p, Pos(Size, 0));
      }
    }
  }

  /** What findAdvancedForkToBlock returns for the player `s`: an empty cell
      whose level reaches ForkLevel, with that level, no empty cell of higher
      level anywhere, and none of the same level earlier in row-major order. */
  ghost predicate MostSerious(g: Grid, s: Mark, t: Threatened)
  {
    && Vacant(g, t.pos)
    && t.threatLevel == BlockLevel(g, t.pos, s) >= ForkLevel
    && (forall p :: Vacant(g, p) ==> BlockLevel(g, p, s) <= t.threatLevel)
    && (forall p :: Vacant(g, p) && Before(p, t.pos) ==> BlockLevel(g, p, s) < t.threatLevel)
  }

  /** No empty cell lets the player `s` reach ForkLevel. */
  ghost predicate NothingToBlock(g: Grid, s: Mark)
  {
    forall p :: Vacant(g, p) ==> BlockLevel(g, p, s) < ForkLevel
  }

  /** The first entry of greatest level in findAdvancedForkToBlock's
      whole-board list is the most serious cell to block. */
  lemma BlockChoiceMeaning(g: Grid, s: Mark, ts: seq<Threatened>, best: int)
    requires ts == ThreatsBefore(g, s, Size, 0) && FirstMaximum(ts, best)
    ensures MostSerious(g, s, ts[best])
  {
    var level := BlockLevels(g, s);
    FirstMaximumMeaning(level, ts, best);
    assert level(ts[best].pos) >= ForkLevel;
    forall p | Vacant(g, p)
      ensures BlockLevel(g, p, s) == level(p)
    {
    }
  }

  /** findAdvancedForkToBlock's whole-board list is empty exactly when
      there is nothing to block. */
  lemma NothingToBlockMeaning(g: Grid, s: Mark, ts: seq<Threatened>)
    requires ts == ThreatsBefore(g, s, Size, 0)
    ensures ts == [] <==> NothingToBlock(g, s)
  {
    var level := BlockLevels(g, s);
    NoThreatsMeaning(level, ts);
    forall p | Vacant(g, p)
      ensures BlockLevel(g, p, s) == level(p)
    {
    }
  }

  // ---------------------------------------------------------------------
  // findCandidateMoves and findExpandedCandidateMoves

  /** p lies within `proximity` rows and columns of q. */
  predicate InWindow(p: Pos, q: Pos, proximity: int)
  {
    -proximity <= p.row - q.row <= proximity && -proximity <= p.col - q.col <= proximity
  }

  /** q is an occupied cell within `proximity` rows and columns of p. */
  predicate Near(g: Grid, p: Pos, q: Pos, proximity: int)
  {
    OnBoard(q) && At(g, q) != Empty && InWindow(p, q, proximity)
  }

  /** An empty cell within `proximity` of some stone: what findCandidateMoves
      (proximity 2) and findExpandedCandidateMoves (proximity 3) collect. */
  ghost predicate Candidate(g: Grid, p: Pos, proximity: int)
  {
    Vacant(g, p) && exists q :: Near(g, p, q, proximity)
  }

  /** With no stone on the board there is no candidate at any proximity. */
  lemma NoStonesNoCandidates(g: Grid, proximity: int)
    requires OccupiedCount(g) == 0
    ensures forall p :: !Candidate(g, p, proximity)
  {
    EmptyIffNoStones(g);
  }

  /** A cell near a stone is near it at any wider proximity: the expanded
      search's first pass finds every candidate of the basic one. */
  lemma CandidateWidens(g: Grid, p: Pos, proximity: int, wider: int)
    requires proximity <= wider && Candidate(g, p, proximity)
    ensures Candidate(g, p, wider)
  {
    var q :| Near(g, p, q, proximity);
    assert Near(g, p, q, wider);
  }

  /** p is within `proximity` of a stone that comes before r in row-major
      order: what the scan of the stones has seen when it reaches r. */
  ghost predicate NearBefore(g: Grid, p: Pos, proximity: int, r: Pos)
  {
    exists q :: Near(g, p, q, proximity) && Before(q, r)
  }

  /** Moving the scan past (row, col) adds the stone there, if any. */
  lemma NearBeforeNext(g: Grid, proximity: int, row: int, col: int)
    ensures forall p :: (NearBefore(g, p, proximity, Pos(row, col + 1))
      <==> NearBefore(g, p, proximity, Pos(row, col)) || Near(g, p, Pos(row, col), proximity))
  {
    forall p | NearBefore(g, p, proximity, Pos(row, col + 1))
      ensures NearBefore(g, p, proximity, Pos(row, col)) || Near(g, p, Pos(row, col), proximity)
    {
      var q :| Near(g, p, q, proximity) && Before(q, Pos(row, col + 1));
      if q != Pos(row, col) {
        assert Before(q, Pos(row, col));
      }
    }
    forall p | Near(g, p, Pos(row, col), proximity)
      ensures NearBefore(g, p, proximity, Pos(row, col + 1))
    {
      assert Before(Pos(row, col), Pos(row, col + 1));
    }
  }

  /** The end of a row of the scan is the start of the next; at the end of
      the board every stone has been seen. */
  lemma NearBeforeRowEnd(g: Grid, proximity: int, row: int)
    ensures forall p :: NearBefore(g, p, proximity, Pos(row, Size)) <==> NearBefore(g, p, proximity, Pos(row + 1, 0))
    ensures forall p :: NearBefore(g, p, proximity, Pos(Size, 0)) <==> exists q :: Near(g, p, q, proximity)
    ensures forall p :: !NearBefore(g, p, proximity, Pos(0, 0))
  {
    forall p | NearBefore(g, p, proximity, Pos(row + 1, 0))
      ensures NearBefore(g, p, proximity, Pos(row, Size))
    {
      var q :| Near(g, p, q, proximity) && Before(q, Pos(row + 1, 0));
      assert Before(q, Pos(row, Size));
    }
    forall p | exists q :: Near(g, p, q, proximity)
      ensures NearBefore(g, p, proximity, Pos(Size, 0))
    {
      var q :| Near(g, p, q, proximity);
      assert Before(q, Pos(Size, 0));
    }
  }

  /** Set.prototype.add on a set kept in insertion order: a new element goes
      at the end, one already present changes nothing. */
  function AddCell(cs: seq<Pos>, p: Pos): (r: seq<Pos>)
    ensures Distinct(cs) ==> Distinct(r)
    ensures forall q :: q in r <==> q in cs || q == p
    ensures |cs| <= |r| && r[..|cs|] == cs
  {
    if p in cs then cs else cs + [p]
  }

  /** The empty cells of rows and columns 7 .. 12, which
      findExpandedCandidateMoves adds when it found fewer than ten. */
  predicate CentreVacant(g: Grid, p: Pos)
  {
    7 <= p.row <= 12 && 7 <= p.col <= 12 && Vacant(g, p)
  }
}
