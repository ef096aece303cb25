/** Specifications of the line-scanning primitives the engine's rules and
    AI share: runs of a symbol along a direction, open ends, the threat and
    fork tests, the pattern strings of detectThreatInDirection and the tier
    tables that classify a line. Every function here is pure and reads a
    Grid snapshot; Engine proves its loops against them. */
module Patterns {
  import opened Board

  /** Offset `i` taken forwards (`row + dir.row * i`) or backwards (`row - dir.row * i`). */
  function Off(forward: bool, i: int): int
  {
    if forward then i else -i
  }

  /** How many cells at offsets 1, 2, ... (at most up to `limit`), taken from
      offset `i` on, hold `m` before the first that does not. */
  function RayFrom(g: Grid, row: int, col: int, d: Dir, forward: bool, m: Cell, i: int, limit: int): (n: nat)
    decreases limit + 1 - i
  {
    if i > limit || Along(g, row, col, d, Off(forward, i)) != On(m) then 0
    else 1 + RayFrom(g, row, col, d, forward, m, i + 1, limit)
  }

  /** The run of `m` next to (row, col) on one side, looking at most `limit` cells away. */
  function Ray(g: Grid, row: int, col: int, d: Dir, forward: bool, m: Cell, limit: int): nat
  {
    RayFrom(g, row, col, d, forward, m, 1, limit)
  }

  lemma {:induction false} RayFromMeaning(g: Grid, row: int, col: int, d: Dir, forward: bool, m: Cell, i: int, limit: int)
    ensures var n := RayFrom(g, row, col, d, forward, m, i, limit);
      && (n > 0 ==> i + n <= limit + 1)
      && (forall t :: i <= t < i + n ==> Along(g, row, col, d, Off(forward, t)) == On(m))
      && (i + n <= limit ==> Along(g, row, col, d, Off(forward, i + n)) != On(m))
    decreases limit + 1 - i
  {
    if i <= limit && Along(g, row, col, d, Off(forward, i)) == On(m) {
      RayFromMeaning(g, row, col, d, forward, m, i + 1, limit);
    }
  }

  /** The ray is the longest prefix of offsets 1 .. limit holding `m`: every
      cell in it holds `m`, and the next one (if still within the limit) does not. */
  lemma RayMeaning(g: Grid, row: int, col: int, d: Dir, forward: bool, m: Cell, limit: int)
    requires limit >= 0
    ensures var n := Ray(g, row, col, d, forward, m, limit);
      && n <= limit
      && (forall t :: 1 <= t <= n ==> Along(g, row, col, d, Off(forward, t)) == On(m))
      && (n < limit ==> Along(g, row, col, d, Off(forward, n + 1)) != On(m))
  {
    RayFromMeaning(g, row, col, d, forward, m, 1, limit);
  }

  // ---------------------------------------------------------------------
  // countConsecutive, countOpenEnds, detectThreat, detectFork

  /** countConsecutive: the cell itself plus up to four on each side. */
  function Consecutive(g: Grid, row: int, col: int, d: Dir, m: Cell): int
  {
    1 + Ray(g, row, col, d, true, m, 4) + Ray(g, row, col, d, false, m, 4)
  }

  /** One end of countOpenEnds: the cell just past the run on this side is on the board and empty. */
  function EndOpen(g: Grid, row: int, col: int, d: Dir, forward: bool, m: Cell): int
  {
    var n := Ray(g, row, col, d, forward, m, 4);
    if Along(g, row, col, d, Off(forward, n + 1)) == On(Empty) then 1 else 0
  }

  function OpenEnds(g: Grid, row: int, col: int, d: Dir, m: Cell): int
  {
    EndOpen(g, row, col, d, false, m) + EndOpen(g, row, col, d, true, m)
  }

  /** detectThreat: four with an open end, or three with two. */
  predicate Threat(g: Grid, row: int, col: int, d: Dir, m: Cell)
  {
    var c, o := Consecutive(g, row, col, d, m), OpenEnds(g, row, col, d, m);
    (c >= 4 && o >= 1) || (c >= 3 && o >= 2)
  }

  function B2I(b: bool): int
  {
    if b then 1 else 0
  }

  /** The number of directions among the first n of Directions in which Threat holds. */
  function ThreatCount(g: Grid, row: int, col: int, m: Cell, n: int): (c: nat)
    requires 0 <= n <= |Directions|
    ensures c <= n
    decreases n
  {
    if n == 0 then 0
    else ThreatCount(g, row, col, m, n - 1) + B2I(Threat(g, row, col, Directions[n - 1], m))
  }

  /** detectFork's verdict on a board that already holds the trial stone. */
  predicate ForkAt(g: Grid, row: int, col: int, m: Cell)
  {
    ThreatCount(g, row, col, m, |Directions|) >= 2
  }

  lemma ThreatCountFour(g: Grid, row: int, col: int, m: Cell)
    ensures ThreatCount(g, row, col, m, |Directions|) ==
      B2I(Threat(g, row, col, Horizontal, m)) + B2I(Threat(g, row, col, Vertical, m))
      + B2I(Threat(g, row, col, Diagonal, m)) + B2I(Threat(g, row, col, AntiDiagonal, m))
  {
    assert ThreatCount(g, row, col, m, 2) ==
      B2I(Threat(g, row, col, Horizontal, m)) + B2I(Threat(g, row, col, Vertical, m));
  }

  /** The fork rule: a fork is a threat in at least two distinct directions. */
  lemma ForkIffTwoThreats(g: Grid, row: int, col: int, m: Cell)
    ensures ForkAt(g, row, col, m) <==>
      exists d1: Dir, d2: Dir :: d1 != d2 && Threat(g, row, col, d1, m) && Threat(g, row, col, d2, m)
  {
    ThreatCountFour(g, row, col, m);
    var t0, t1 := Threat(g, row, col, Horizontal, m), Threat(g, row, col, Vertical, m);
    var t2, t3 := Threat(g, row, col, Diagonal, m), Threat(g, row, col, AntiDiagonal, m);
    if ForkAt(g, row, col, m) {
      if t0 && t1 {
        assert Horizontal != Vertical;
      } else if t0 && t2 {
        assert Horizontal != Diagonal;
      } else if t0 && t3 {
        assert Horizontal != AntiDiagonal;
      } else if t1 && t2 {
        assert Vertical != Diagonal;
      } else if t1 && t3 {
        assert Vertical != AntiDiagonal;
      } else {
        assert t2 && t3;
        assert Diagonal != AntiDiagonal;
      }
    } else {
      forall d1: Dir, d2: Dir | d1 != d2 && Threat(g, row, col, d1, m)
        ensures !Threat(g, row, col, d2, m)
      {
      }
    }
  }

  /** countConsecutive lies in 1..9 and countOpenEnds in 0..2. */
  lemma LineCountBounds(g: Grid, row: int, col: int, d: Dir, m: Cell)
    ensures 1 <= Consecutive(g, row, col, d, m) <= 9
    ensures 0 <= OpenEnds(g, row, col, d, m) <= 2
  {
    RayMeaning(g, row, col, d, true, m, 4);
    RayMeaning(g, row, col, d, false, m, 4);
  }

  // ---------------------------------------------------------------------
  // detectThreatInDirection: the nine-cell line as a pattern string

  /** The cell a square holds, if it is on the board. */
  function OnCells(sq: Square): seq<Cell>
  {
    match sq
    case On(c) => [c]
    case OffBoard => []
  }

  /** The cells on the board at offsets -4 .. i-1 along d, in order. */
  function LineCellsUpTo(g: Grid, row: int, col: int, d: Dir, i: int): seq<Cell>
    decreases i + 4
  {
    if i <= -4 then [] else LineCellsUpTo(g, row, col, d, i - 1) + OnCells(Along(g, row, col, d, i - 1))
  }

  /** The cells on the board at offsets -4 .. +4 along d. */
  function LineCells(g: Grid, row: int, col: int, d: Dir): seq<Cell>
  {
    LineCellsUpTo(g, row, col, d, 5)
  }

  function SymbolChar(m: Mark): char
  {
    if m == X then 'X' else 'O'
  }

  /** The marker this model uses for a cell held by the opponent. */
  const Blocked: char := '#'

  /** One cell of the pattern string: the symbol itself, '.' for empty, and
      `blocked` for anything else. */
  function Encode(c: Cell, m: Mark, blocked: char): char
  {
    if c == m then SymbolChar(m) else if c == Empty then '.' else blocked
  }

  function EncodeLine(cells: seq<Cell>, m: Mark, blocked: char): (s: string)
    ensures |s| == |cells|
    ensures forall k :: 0 <= k < |cells| ==> s[k] == Encode(cells[k], m, blocked)
  {
    seq(|cells|, k requires 0 <= k < |cells| => Encode(cells[k], m, blocked))
  }

  /** With a blocked marker distinct from both symbols and '.', the pattern
      string reads back exactly which cells hold `m` and which are empty. */
  lemma EncodeLineFaithful(cells: seq<Cell>, m: Mark)
    ensures var s := EncodeLine(cells, m, Blocked);
      forall k :: 0 <= k < |cells| ==>
        (s[k] == SymbolChar(m) <==> cells[k] == m) && (s[k] == '.' <==> cells[k] == Empty)
  {
  }

  /** Encoding a line cell by cell: the string of two joined pieces is the
      two strings joined. */
  lemma EncodeLineAppend(a: seq<Cell>, b: seq<Cell>, m: Mark, blocked: char)
    ensures EncodeLine(a + b, m, blocked) == EncodeLine(a, m, blocked) + EncodeLine(b, m, blocked)
  {
    var l, r := EncodeLine(a + b, m, blocked), EncodeLine(a, m, blocked) + EncodeLine(b, m, blocked);
    forall k | 0 <= k < |l|
      ensures l[k] == r[k]
    {
      if k < |a| {
        assert (a + b)[k] == a[k];
      } else {
        assert (a + b)[k] == b[k - |a|];
      }
    }
  }

  /** The line string the engine builds, with opponent stones written as Blocked. */
  function PatternLine(g: Grid, row: int, col: int, d: Dir, m: Mark): string
  {
    EncodeLine(LineCells(g, row, col, d), m, Blocked)
  }

  /** The seven threat patterns, in the engine's order. */
  function ThreatPatterns(m: Mark): (ps: seq<string>)
    ensures |ps| == 7
  {
    var s := SymbolChar(m);
    [ ['.', s, s, s, '.'],
      ['.', s, s, '.', s, '.'],
      ['.', s, '.', s, s, '.'],
      ['.', '.', s, s, s],
      [s, s, s, '.', '.'],
      ['.', s, s, '.', '.'],
      ['.', '.', s, s, '.'] ]
  }

  /** `p` occurs in `s` starting at index `i`. */
  predicate OccursAt(s: string, p: string, i: int)
  {
    0 <= i && i + |p| <= |s| && s[i..i + |p|] == p
  }

  /** String.prototype.includes: `p` occurs in `s` at some position. */
  function Contains(s: string, p: string): (b: bool)
    ensures b <==> exists i :: OccursAt(s, p, i)
    decreases |s|
  {
    if |p| > |s| then false
    else if s[..|p|] == p then
      assert OccursAt(s, p, 0);
      true
    else
      var b := Contains(s[1..], p);
      assert forall j :: OccursAt(s[1..], p, j) <==> OccursAt(s, p, j + 1) by {
        forall j ensures OccursAt(s[1..], p, j) <==> OccursAt(s, p, j + 1) {
          if 0 <= j && j + |p| <= |s| - 1 {
            assert s[1..][j..j + |p|] == s[j + 1..j + 1 + |p|];
          }
        }
      }
      assert (exists i :: OccursAt(s, p, i)) ==> b by {
        if exists i :: OccursAt(s, p, i) {
          var i :| OccursAt(s, p, i);
          assert i != 0;
          assert OccursAt(s[1..], p, i - 1);
        }
      }
      b
  }

  /** Some threat pattern occurs in the line string. */
  predicate LineThreat(line: string, m: Mark)
  {
    exists i :: 0 <= i < 7 && Contains(line, ThreatPatterns(m)[i])
  }

  predicate PatternThreat(g: Grid, row: int, col: int, d: Dir, m: Mark)
  {
    LineThreat(PatternLine(g, row, col, d, m), m)
  }

  /** The number of directions among the first n of Directions that
      `flag` marks. */
  function CountFlags(flag: Dir -> bool, n: int): (c: nat)
    requires 0 <= n <= |Directions|
    ensures c <= n
    decreases n
  {
    if n == 0 then 0 else CountFlags(flag, n - 1) + B2I(flag(Directions[n - 1]))
  }

  /** Counting over more of the directions never counts fewer. */
  lemma {:induction false} CountFlagsMonotone(flag: Dir -> bool, k: int, n: int)
    requires 0 <= k <= n <= |Directions|
    ensures CountFlags(flag, k) <= CountFlags(flag, n)
    decreases n
  {
    if k < n {
      CountFlagsMonotone(flag, k, n - 1);
    }
  }

  /** Flags that hold wherever other flags hold count at least as many. */
  lemma {:induction false} CountFlagsImplies(flag: Dir -> bool, flag': Dir -> bool, n: int)
    requires 0 <= n <= |Directions|
    requires forall d :: flag(d) ==> flag'(d)
    ensures CountFlags(flag, n) <= CountFlags(flag', n)
    decreases n
  {
    if n > 0 {
      CountFlagsImplies(flag, flag', n - 1);
    }
  }

  /** Which directions hold a threat by pattern. */
  function ThreatFlags(g: Grid, row: int, col: int, m: Mark): Dir -> bool
  {
    d => PatternThreat(g, row, col, d, m)
  }

  /** The number of directions among the first n of Directions whose
      pattern string holds a threat. */
  function PatternThreatCount(g: Grid, row: int, col: int, m: Mark, n: int): (c: nat)
    requires 0 <= n <= |Directions|
    ensures c <= n
  {
    CountFlags(ThreatFlags(g, row, col, m), n)
  }

  /** Counting over more of the directions never counts fewer threats. */
  lemma PatternThreatCountMonotone(g: Grid, row: int, col: int, m: Mark, k: int, n: int)
    requires 0 <= k <= n <= |Directions|
    ensures PatternThreatCount(g, row, col, m, k) <= PatternThreatCount(g, row, col, m, n)
  {
    CountFlagsMonotone(ThreatFlags(g, row, col, m), k, n);
  }

  /** One more direction of detectAdvancedFork's count: it goes up by one
      exactly when that direction holds a threat. */
  lemma PatternThreatCountNext(g: Grid, row: int, col: int, m: Mark, n: int, threat: bool)
    requires 0 <= n < |Directions| && threat == PatternThreat(g, row, col, Directions[n], m)
    ensures PatternThreatCount(g, row, col, m, n + 1) == PatternThreatCount(g, row, col, m, n) + B2I(threat)
  {
    assert ThreatFlags(g, row, col, m)(Directions[n]) == threat;
  }

  /** detectAdvancedFork's verdict on a board that already holds the trial stone. */
  predicate AdvancedForkAt(g: Grid, row: int, col: int, m: Mark)
  {
    PatternThreatCount(g, row, col, m, |Directions|) >= 2
  }

  // ---------------------------------------------------------------------
  // evaluateDirectionalThreat: a gap-tolerant scan of one side, then a tier table

  /** The state of one side's scan: forwardConsecutive, forwardOpen,
      forwardGap, and the gaps this side added. */
  datatype SideScan = SideScan(consecutive: nat, open: bool, gap: bool, gaps: nat)

  const FreshScan := SideScan(0, false, false, 0)

  /** The scan of one side from offset i to 5: a stone after a gap counts a
      gap and restarts the count at 1; an empty cell before any stone marks
      the side open and stops; an empty cell after stones opens a gap; an
      opponent stone or the edge stops. */
  function ScanSide(g: Grid, row: int, col: int, d: Dir, forward: bool, m: Cell, i: int, s: SideScan): SideScan
    decreases 6 - i
  {
    if i > 5 then s
    else match Along(g, row, col, d, Off(forward, i))
      case OffBoard => s
      case On(c) =>
        if c == m then
          ScanSide(g, row, col, d, forward, m, i + 1,
                   if s.gap then SideScan(1, s.open, false, s.gaps + 1) else s.(consecutive := s.consecutive + 1))
        else if c == Empty then
          if s.consecutive == 0 then s.(open := true)
          else ScanSide(g, row, col, d, forward, m, i + 1, s.(gap := true))
        else s
  }

  function Side(g: Grid, row: int, col: int, d: Dir, forward: bool, m: Cell): SideScan
  {
    ScanSide(g, row, col, d, forward, m, 1, FreshScan)
  }

  /** The tier table of evaluateDirectionalThreat. */
  function ThreatTier(consecutive: int, openEnds: int, gaps: int): (v: int)
    ensures v in {0, 20, 40, 60, 70, 90, 100}
    ensures v == 100 <==> consecutive >= 4
  {
    if consecutive >= 4 then 100
    else if consecutive == 3 then
      if openEnds == 2 && gaps == 0 then 90
      else if openEnds == 1 && gaps == 0 then 60
      else if openEnds == 2 && gaps == 1 then 70
      else 0
    else if consecutive == 2 then
      if openEnds == 2 && gaps == 0 then 40
      else if openEnds == 1 && gaps == 0 then 20
      else 0
    else 0
  }

  function DirectionalThreat(g: Grid, row: int, col: int, d: Dir, m: Cell): int
  {
    var f, b := Side(g, row, col, d, true, m), Side(g, row, col, d, false, m);
    ThreatTier(1 + f.consecutive + b.consecutive,
               (if f.open then 1 else 0) + (if b.open then 1 else 0),
               f.gaps + b.gaps)
  }

  /** Once a side has counted a stone, its count never returns to zero and
      its open flag never changes. */
  lemma {:induction false} ScanKeepsCount(g: Grid, row: int, col: int, d: Dir, forward: bool, m: Cell, i: int, s: SideScan)
    requires s.consecutive > 0
    ensures ScanSide(g, row, col, d, forward, m, i, s).consecutive > 0
    ensures ScanSide(g, row, col, d, forward, m, i, s).open == s.open
    decreases 6 - i
  {
    var a := Along(g, row, col, d, Off(forward, i));
    if i <= 5 && a == On(m) {
      var next := if s.gap then SideScan(1, s.open, false, s.gaps + 1) else s.(consecutive := s.consecutive + 1);
      assert ScanSide(g, row, col, d, forward, m, i, s) == ScanSide(g, row, col, d, forward, m, i + 1, next);
      ScanKeepsCount(g, row, col, d, forward, m, i + 1, next);
    } else if i <= 5 && a == On(Empty) {
      var next := s.(gap := true);
      assert ScanSide(g, row, col, d, forward, m, i, s) == ScanSide(g, row, col, d, forward, m, i + 1, next);
      ScanKeepsCount(g, row, col, d, forward, m, i + 1, next);
    } else {
      assert ScanSide(g, row, col, d, forward, m, i, s) == s;
    }
  }

  /** A scan that has counted nothing yet ends open exactly when the first
      cell it looks at is on the board and empty, and then it has still
      counted nothing. */
  lemma FirstCellDecidesOpen(g: Grid, row: int, col: int, d: Dir, forward: bool, m: Mark, i: int, s: SideScan)
    requires i <= 5 && s.consecutive == 0 && !s.open && !s.gap
    ensures ScanSide(g, row, col, d, forward, m, i, s).open <==> Along(g, row, col, d, Off(forward, i)) == On(Empty)
    ensures ScanSide(g, row, col, d, forward, m, i, s).open ==> ScanSide(g, row, col, d, forward, m, i, s).consecutive == 0
  {
    match Along(g, row, col, d, Off(forward, i))
    case OffBoard =>
    case On(c) =>
      if c == m {
        ScanKeepsCount(g, row, col, d, forward, m, i + 1, s.(consecutive := 1));
      }
  }

  /** A side is open exactly when the cell next to (row, col) on that side
      is on the board and empty, and an open side has counted no stone. */
  lemma SideOpenMeaning(g: Grid, row: int, col: int, d: Dir, forward: bool, m: Mark)
    ensures Side(g, row, col, d, forward, m).open <==> Along(g, row, col, d, Off(forward, 1)) == On(Empty)
    ensures Side(g, row, col, d, forward, m).open ==> Side(g, row, col, d, forward, m).consecutive == 0
  {
    FirstCellDecidesOpen(g, row, col, d, forward, m, 1, FreshScan);
  }

  /** Because an end counts as open only on a side with no stones, two open
      ends force a lone stone, so evaluateDirectionalThreat only ever yields
      100, 60, 20 or 0: its rows for 90 (open three), 70 (split three) and
      40 (open two) are never reached. */
  lemma DirectionalThreatValues(g: Grid, row: int, col: int, d: Dir, m: Mark)
    ensures DirectionalThreat(g, row, col, d, m) in {0, 20, 60, 100}
  {
    SideOpenMeaning(g, row, col, d, true, m);
    SideOpenMeaning(g, row, col, d, false, m);
  }

  // ---------------------------------------------------------------------
  // evaluateThreatLevel, in hundredths

  /** The (threatCount, maxThreatValue) pair of evaluateThreatLevel over
      the first n of Directions. */
  function ThreatLevelParts(g: Grid, row: int, col: int, m: Cell, n: int): (int, int)
    requires 0 <= n <= |Directions|
    decreases n
  {
    if n == 0 then (0, 0)
    else Tally(ThreatLevelParts(g, row, col, m, n - 1), DirectionalThreat(g, row, col, Directions[n - 1], m))
  }

  /** One direction's value added to (threatCount, maxThreatValue): two
      points at 90 or more, one at 50 or more, and the maximum kept. */
  function Tally(parts: (int, int), v: int): (int, int)
  {
    var (count, best) := parts;
    if v >= 90 then (count + 2, if best < v then v else best)
    else if v >= 50 then (count + 1, if best < v then v else best)
    else (count, best)
  }


  /** evaluateThreatLevel times 100: threatCount + maxThreatValue / 100 is a
      float in the engine; scaled by 100 it is an integer and compares the same. */
  function ThreatLevel(g: Grid, row: int, col: int, m: Cell): int
  {
    var (count, best) := ThreatLevelParts(g, row, col, m, |Directions|);
    count * 100 + best
  }

  /** The points one direction's value adds to threatCount. */
  function Weight(v: int): int
  {
    if v >= 90 then 2 else if v >= 50 then 1 else 0
  }

  /** What the tally keeps: the maximum within 0..100, 0 while nothing was
      counted, below 90 while the count is one. */
  predicate PartsBounded(parts: (int, int))
  {
    && 0 <= parts.1 <= 100
    && (parts.0 == 0 ==> parts.1 == 0)
    && (parts.0 == 1 ==> parts.1 < 90)
  }

  /** Tallying one more value of at most 100 keeps those bounds. */
  lemma TallyBounded(parts: (int, int), v: int)
    requires PartsBounded(parts) && parts.0 >= 0 && v <= 100
    ensures PartsBounded(Tally(parts, v)) && Tally(parts, v).0 >= 0
  {
  }

  lemma {:induction false} ThreatLevelPartsBounds(g: Grid, row: int, col: int, m: Cell, n: int)
    requires 0 <= n <= |Directions|
    ensures PartsBounded(ThreatLevelParts(g, row, col, m, n)) && ThreatLevelParts(g, row, col, m, n).0 >= 0
    decreases n
  {
    if n > 0 {
      var parts := ThreatLevelParts(g, row, col, m, n - 1);
      var v := DirectionalThreat(g, row, col, Directions[n - 1], m);
      ThreatLevelPartsBounds(g, row, col, m, n - 1);
      TallyBounded(parts, v);
      assert ThreatLevelParts(g, row, col, m, n) == Tally(parts, v);
    }
  }

  /** threatCount is the sum of the weights of the directions tallied. */
  lemma {:induction false} ThreatLevelPartsCount(g: Grid, row: int, col: int, m: Cell, n: int)
    requires 0 <= n <= |Directions|
    ensures ThreatLevelParts(g, row, col, m, n).0 ==
      (if n >= 1 then Weight(DirectionalThreat(g, row, col, Horizontal, m)) else 0)
      + (if n >= 2 then Weight(DirectionalThreat(g, row, col, Vertical, m)) else 0)
      + (if n >= 3 then Weight(DirectionalThreat(g, row, col, Diagonal, m)) else 0)
      + (if n >= 4 then Weight(DirectionalThreat(g, row, col, AntiDiagonal, m)) else 0)
    decreases n
  {
    if n > 0 {
      ThreatLevelPartsCount(g, row, col, m, n - 1);
    }
  }

  // ---------------------------------------------------------------------
  // evaluateDirectionalPatterns: plain runs of up to five a side, then a score table

  /** A side counts as open when its run stops within five cells at an empty cell. */
  predicate SideOpen5(g: Grid, row: int, col: int, d: Dir, forward: bool, m: Cell)
  {
    var n := Ray(g, row, col, d, forward, m, 5);
    n < 5 && Along(g, row, col, d, Off(forward, n + 1)) == On(Empty)
  }

  /** The score table of evaluateDirectionalPatterns. */
  function PatternScore(maxConsecutive: int, openEnds: int): (score: int)
    requires 0 <= openEnds <= 2
    ensures score >= 0
    ensures maxConsecutive >= 5 <==> score == 10000
  {
    if maxConsecutive >= 5 then 10000
    else if maxConsecutive == 4 then
      if openEnds == 2 then 5000 else if openEnds == 1 then 1000 else 0
    else if maxConsecutive == 3 then
      if openEnds == 2 then 500 else if openEnds == 1 then 100 else 0
    else if maxConsecutive == 2 then
      if openEnds == 2 then 50 else if openEnds == 1 then 10 else 0
    else openEnds * 5
  }

  /** The score table is a ranking: a longer run or more open ends never scores less. */
  lemma PatternScoreMonotone(c1: int, o1: int, c2: int, o2: int)
    requires 1 <= c1 <= c2 && 0 <= o1 <= o2 <= 2
    ensures PatternScore(c1, o1) <= PatternScore(c2, o2)
  {
  }

  datatype PatternEval = PatternEval(score: int, threatLevel: int)

  /** (maxConsecutive, openEnds) of evaluateDirectionalPatterns on a board
      holding the trial stone: the stone plus the runs on both sides, and
      the sides that stop at an empty cell. */
  function PatternRuns(g: Grid, row: int, col: int, d: Dir, m: Cell): (r: (int, int))
    ensures 1 <= r.0 <= 11 && 0 <= r.1 <= 2
  {
    RayMeaning(g, row, col, d, true, m, 5);
    RayMeaning(g, row, col, d, false, m, 5);
    (1 + Ray(g, row, col, d, true, m, 5) + Ray(g, row, col, d, false, m, 5),
     B2I(SideOpen5(g, row, col, d, true, m)) + B2I(SideOpen5(g, row, col, d, false, m)))
  }

  /** PatternRuns put together from the two sides' runs and open ends. */
  lemma PatternRunsOfSides(g: Grid, row: int, col: int, d: Dir, m: Cell, forwardRun: int, forwardOpen: int, backwardRun: int, backwardOpen: int)
    requires forwardRun == Ray(g, row, col, d, true, m, 5) && forwardOpen == B2I(SideOpen5(g, row, col, d, true, m))
    requires backwardRun == Ray(g, row, col, d, false, m, 5) && backwardOpen == B2I(SideOpen5(g, row, col, d, false, m))
    ensures PatternRuns(g, row, col, d, m) == (1 + forwardRun + backwardRun, forwardOpen + backwardOpen)
  {
  }

  /** The result of evaluateDirectionalPatterns on a board holding the trial stone. */
  function DirectionalPatterns(g: Grid, row: int, col: int, d: Dir, m: Cell): PatternEval
  {
    var (n, o) := PatternRuns(g, row, col, d, m);
    PatternEval(PatternScore(n, o), n + o)
  }

  // ---------------------------------------------------------------------
  // isInLine

  /** isInLine: (row2, col2) lies on the line through (row1, col1) along d,
      that is, a whole number of the direction's steps away. */
  function IsInLine(row1: int, col1: int, row2: int, col2: int, d: Dir): (b: bool)
    ensures b <==> exists t :: RowAt(row1, d, t) == row2 && ColAt(col1, d, t) == col2
  {
    var rowDiff, colDiff := row2 - row1, col2 - col1;
    var inLine := match d
      case Horizontal => rowDiff == 0
      case Vertical => colDiff == 0
      case Diagonal => rowDiff == colDiff
      case AntiDiagonal => rowDiff == -colDiff;
    var t := if d == Horizontal then colDiff else rowDiff;
    assert inLine ==> RowAt(row1, d, t) == row2 && ColAt(col1, d, t) == col2;
    inLine
  }
}

/** The pattern string of detectThreatInDirection as the engine writes it
    (js/game.js:361-367): a cell that is neither the symbol nor empty becomes
    the letter 'X' whatever the symbol is, so for symbol X an O stone reads as
    an X stone. */
module PatternsAsWritten {
  import opened Board
  import opened Patterns

  const AsWrittenBlocked: char := 'X'

  function AsWrittenPatternLine(g: Grid, row: int, col: int, d: Dir, m: Mark): string
  {
    EncodeLine(LineCells(g, row, col, d), m, AsWrittenBlocked)
  }

  /** X at (10,10) and (10,12) with an O between them on an otherwise empty
      board: the line through (10,10) is _ _ _ _ X O X _ _. */
  function SplitByOpponent(): Grid
  {
    Place(Place(Place(EmptyGrid(), 10, 10, X), 10, 11, O), 10, 12, X)
  }

  /** The row through (10, 10) on that board, from offset -4 to +4. */
  lemma SplitByOpponentLine()
    ensures LineCells(SplitByOpponent(), 10, 10, Horizontal) == [Empty, Empty, Empty, Empty, X, O, X, Empty, Empty]
  {
  }

  /** On that board the engine's string for X is "....XXX..", which holds the
      pattern ".XXX." (and "..XXX"), so it reports a threat for X along the
      row although the O splits the X stones. */
  lemma AsWrittenSeesPhantomThree()
    ensures Encode(O, X, AsWrittenBlocked) == SymbolChar(X)
    ensures LineThreat(AsWrittenPatternLine(SplitByOpponent(), 10, 10, Horizontal, X), X)
  {
    SplitByOpponentLine();
    var bad := AsWrittenPatternLine(SplitByOpponent(), 10, 10, Horizontal, X);
    assert bad == "....XXX..";
    assert OccursAt(bad, ThreatPatterns(X)[0], 3);
  }

  /** With a distinct blocked marker the string is "....X#X..", which holds
      none of the seven patterns: no threat along that row. */
  lemma CorrectedSeesNoThree()
    ensures !PatternThreat(SplitByOpponent(), 10, 10, Horizontal, X)
  {
    SplitByOpponentLine();
    var good := PatternLine(SplitByOpponent(), 10, 10, Horizontal, X);
    assert good == "....X#X..";
    // every threat pattern holds two adjacent X, and "....X#X.." does not
    forall i, j | 0 <= i < 7 ensures !OccursAt(good, ThreatPatterns(X)[i], j) {
      var p := ThreatPatterns(X)[i];
      var k := [1, 1, 3, 2, 0, 1, 2][i];
      assert p[k] == 'X' && p[k + 1] == 'X';
    }
  }

  /** detectThreatInDirection as the engine writes it. */
  predicate AsWrittenThreat(g: Grid, row: int, col: int, d: Dir, m: Mark)
  {
    LineThreat(AsWrittenPatternLine(g, row, col, d, m), m)
  }

  function AsWrittenThreatFlags(g: Grid, row: int, col: int, m: Mark): Dir -> bool
  {
    d => AsWrittenThreat(g, row, col, d, m)
  }

  /** detectAdvancedFork as the engine writes it: two or more directions
      whose as-written string holds a threat pattern. */
  predicate AsWrittenForkAt(g: Grid, row: int, col: int, m: Mark)
  {
    CountFlags(AsWrittenThreatFlags(g, row, col, m), |Directions|) >= 2
  }

  /** Wherever `s` shows the symbol or '.', `t` shows the same character. */
  predicate Agrees(s: string, t: string, m: Mark)
  {
    |s| == |t| && forall k :: 0 <= k < |s| && (s[k] == SymbolChar(m) || s[k] == '.') ==> t[k] == s[k]
  }

  /** Every threat pattern is written with the symbol and '.' only. */
  lemma PatternAlphabet(m: Mark, j: int)
    requires 0 <= j < 7
    ensures forall k :: 0 <= k < |ThreatPatterns(m)[j]| ==>
      ThreatPatterns(m)[j][k] == SymbolChar(m) || ThreatPatterns(m)[j][k] == '.'
  {
  }

  /** Two encodings of the same cells agree on the symbol and '.' as long as
      the first blocked marker is neither of them. */
  lemma EncodingsAgree(cells: seq<Cell>, m: Mark, blocked: char, blocked': char)
    requires blocked != SymbolChar(m) && blocked != '.'
    ensures Agrees(EncodeLine(cells, m, blocked), EncodeLine(cells, m, blocked'), m)
  {
  }

  /** A threat pattern found in `s` is found in any string that agrees with it. */
  lemma {:induction false} ThreatCarries(s: string, t: string, m: Mark)
    requires Agrees(s, t, m)
    ensures LineThreat(s, m) ==> LineThreat(t, m)
  {
    if LineThreat(s, m) {
      var j :| 0 <= j < 7 && Contains(s, ThreatPatterns(m)[j]);
      var p := ThreatPatterns(m)[j];
      var i :| OccursAt(s, p, i);
      PatternAlphabet(m, j);
      forall k | 0 <= k < |p|
        ensures t[i + k] == p[k]
      {
        assert s[i..i + |p|][k] == s[i + k];
      }
      assert t[i..i + |p|] == p;
      assert OccursAt(t, p, i);
    }
  }

  /** Every threat the corrected string shows, the engine's string shows too. */
  lemma CorrectedThreatIsAsWrittenThreat(g: Grid, row: int, col: int, d: Dir, m: Mark)
    ensures PatternThreat(g, row, col, d, m) ==> AsWrittenThreat(g, row, col, d, m)
  {
    var cells := LineCells(g, row, col, d);
    EncodingsAgree(cells, m, Blocked, AsWrittenBlocked);
    ThreatCarries(EncodeLine(cells, m, Blocked), EncodeLine(cells, m, AsWrittenBlocked), m);
  }

  /** For symbol O the engine's 'X' marker is already distinct from 'O' and
      '.', so both strings show the same threats. */
  lemma AsWrittenThreatForO(g: Grid, row: int, col: int, d: Dir)
    ensures AsWrittenThreat(g, row, col, d, O) <==> PatternThreat(g, row, col, d, O)
  {
    var cells := LineCells(g, row, col, d);
    EncodingsAgree(cells, O, Blocked, AsWrittenBlocked);
    EncodingsAgree(cells, O, AsWrittenBlocked, Blocked);
    ThreatCarries(EncodeLine(cells, O, Blocked), EncodeLine(cells, O, AsWrittenBlocked), O);
    ThreatCarries(EncodeLine(cells, O, AsWrittenBlocked), EncodeLine(cells, O, Blocked), O);
  }

  /** Every advanced fork of the model is one for the engine as written:
      the engine's fork verdicts can only add cells. */
  lemma CorrectedForkIsAsWrittenFork(g: Grid, row: int, col: int, m: Mark)
    ensures AdvancedForkAt(g, row, col, m) ==> AsWrittenForkAt(g, row, col, m)
  {
    var flag, flag' := ThreatFlags(g, row, col, m), AsWrittenThreatFlags(g, row, col, m);
    forall d ensures flag(d) ==> flag'(d) {
      CorrectedThreatIsAsWrittenThreat(g, row, col, d, m);
    }
    CountFlagsImplies(flag, flag', |Directions|);
  }

  /** For symbol O the model's fork verdict is the engine's. */
  lemma AsWrittenForkForO(g: Grid, row: int, col: int)
    ensures AsWrittenForkAt(g, row, col, O) <==> AdvancedForkAt(g, row, col, O)
  {
    var flag, flag' := ThreatFlags(g, row, col, O), AsWrittenThreatFlags(g, row, col, O);
    forall d ensures flag(d) <==> flag'(d) {
      AsWrittenThreatForO(g, row, col, d);
    }
    CountFlagsImplies(flag, flag', |Directions|);
    CountFlagsImplies(flag', flag, |Directions|);
  }
}
