# Connect-five engine (`TicTacToeGame`) in Dafny

This project models the game engine of a browser connect-five ("gomoku") game.
The engine is the class `TicTacToeGame` in `js/game.js`. Two players, X and O,
take turns placing stones on a 20x20 board. Five in a row — horizontal,
vertical or either diagonal — wins. A full board is a draw. A countdown can
also end the game.

The model has five modules:

- `Board` (board.dfy). Cells, the pure board value `Grid` (rows of cells), the
  four directions, the cell at an offset along a direction, and what a run of
  five means.
- `Clock` (clock.dfy). `formatTime` as a function, with its `MM:SS` shape and a
  round trip through a reader of that text.
- `Patterns` (patterns.dfy). Pure specifications of the line primitives:
  - `countConsecutive` and `countOpenEnds`;
  - the `detectThreat`/`detectFork` rule;
  - the pattern strings of `detectThreatInDirection`;
  - the gap-tolerant scan and tier table of `evaluateDirectionalThreat`;
  - `evaluateThreatLevel`;
  - the runs and score table of `evaluateDirectionalPatterns`;
  - `isInLine`.
- `Moves` (moves.dfy). Specifications of the AI's board scans:
  - which empty cells win, make a fork, or need blocking after a trial stone;
  - how many stones are on the board;
  - which empty cells lie near a stone.
- `Engine` (engine.dfy). The class `TicTacToeGame`:
  - its board is an `array2<Cell>` and its fields hold the turn, the symbols,
    the game-over flag, the winning cells and the countdown;
  - every engine operation is a method that reads or writes that array, with
    its loops and their invariants, proved against the specifications above.

The trial-placement scans (`findWinningMove`, `findPotentialFork`,
`findAdvancedForkToBlock`, `detectFork`, `evaluateDirectionalPatterns`) write a
stone into the board array, evaluate, and write the old value back. Each of
them ensures `unchanged(board)`. Their results are stated over
`Place(Cells(), row, col, symbol)`, the board with that one stone added.

Some properties follow from the engine's own logic:

- `makeHardAIMove` prefers its own win to blocking the player.
- `detectFork` holds exactly when two different directions each carry a threat.
- In `evaluateDirectionalThreat`, an end counts as open only on a side with no
  stones. So two open ends imply a lone stone, and the function yields only
  100, 60, 20 or 0. Its rows for 90, 70 and 40 are never reached
  (`Patterns.DirectionalThreatValues`).

## Model

| member | source | states |
|---|---|---|
| Engine.TicTacToeGame.constructor | js/game.js:6-23 | the board is empty, X is to move, the player is X and the AI is O, the game is not active, no winning cells, the countdown is 15 minutes and stopped |
| Engine.TicTacToeGame.Init | js/game.js:31-65 | a fresh empty board; the given player symbol with the other symbol for the AI; X moves first; the game is active; the duration is replaced only when one is given; the countdown restarts from the duration and runs; the result carries X and the formatted remaining time |
| Engine.TicTacToeGame.MakeMove | js/game.js:73-131 | an inactive game or an occupied cell gives Invalid and changes nothing. Otherwise the mover's symbol goes into exactly that cell. Won exactly when that cell now lies in a run of five: the game stops, the mover stays current and is the winner, and the winning cells are the first run the scan meets. Drawn exactly when there is no run and the board is full: the game stops. Otherwise the turn passes to the other symbol, with `aiMove` exactly when the AI is to move |
| Engine.TicTacToeGame.CheckWin | js/game.js:1693-1733 | true exactly when the cell is occupied and lies in a run of five of its symbol inside offsets -4..+4 along some direction. When true and not checkOnly, winningCells becomes the first such run in scan order; otherwise winningCells is untouched |
| Engine.TicTacToeGame.ScanDirection | js/game.js:1705-1729 | one direction of checkWin: found exactly when some visible run of five exists in that direction; the line returned is the run with the lowest start offset |
| Engine.ScanOn | js/game.js:1714-1727 | one in-bounds step of checkWin's window: the trailing run of the symbol grows or resets; reaching five means a run starting at i-4 with no earlier start, otherwise the scan invariant holds one offset further |
| Engine.ScanOff | js/game.js:1714 | an off-board offset leaves the trailing run and the invariant intact |
| Engine.TrailingFive | js/game.js:1722-1724 | a trailing run of length five is a run of five and equals the five cells from its start (the `slice(-5)`) |
| Board.RunCellsFormLine | js/game.js:1709-1727 | a recorded winning line is five on-board cells holding the symbol of (row, col), includes (row, col), and steps by one direction each time |
| Engine.TicTacToeGame.CheckDraw | js/game.js:1739-1748 | true exactly when no cell of the board is empty |
| Engine.TicTacToeGame.Reset | js/game.js:1795-1799 | the game becomes inactive, the winning cells are cleared and the countdown stops |
| Engine.TicTacToeGame.StartTimer | js/game.js:1753-1767 | the countdown runs |
| Engine.TicTacToeGame.StopTimer | js/game.js:1772-1777 | the countdown does not run |
| Engine.TicTacToeGame.Tick | js/game.js:1754-1765 | one tick of the interval: a stopped countdown changes nothing. A running one loses a second, and at zero or below it ends the game and stops |
| Clock.FormatTime | js/game.js:1784-1790 | for any non-negative time the text ends in ':' and two digits that give the seconds within the minute, after at least two characters of minutes |
| Clock.FormatTimeShape | js/game.js:1784-1790 | for 0 <= n < 6000 the text is five characters: two digits giving n / 60, ':', two digits giving n % 60 |
| Clock.FormatTimeRoundTrip | js/game.js:1784-1790 | reading the `MM:SS` text back gives n |
| Clock.TwoDigits | js/game.js:1787-1789 | a number below 100, padded to two, is exactly its two decimal digits |
| Board.Place | js/game.js:83 | writing one cell changes that cell and no other |
| Board.Other | js/game.js:115 | the symbol that takes the turn differs from the one that had it |
| Engine.TicTacToeGame.Look | js/game.js:1433-1438 | the cell at an offset along a direction, or off-board when the bounds check fails |
| Engine.TicTacToeGame.RunLength | js/game.js:1429-1443 | the number of cells holding the symbol straight after (row, col) on one side, up to the loop limit |
| Patterns.RayMeaning | js/game.js:1429-1443 | that run: every counted cell holds the symbol, it never passes the limit, and the cell after it does not hold the symbol when the limit is not reached |
| Engine.TicTacToeGame.CountConsecutive | js/game.js:1425-1463 | the piece itself plus both sides' runs (four cells at most each), between 1 and 9 |
| Engine.TicTacToeGame.EndOpenSide | js/game.js:1519-1542 | one end of countOpenEnds: 1 exactly when the cell past that side's run is on the board and empty |
| Engine.TicTacToeGame.CountOpenEnds | js/game.js:1473-1545 | the two ends' sum, between 0 and 2 |
| Patterns.LineCountBounds | js/game.js:1425-1545 | countConsecutive is within 1..9 and countOpenEnds within 0..2 on every board |
| Engine.TicTacToeGame.DetectThreat | js/game.js:1403-1415 | (count >= 4 and at least one open end) or (count >= 3 and two open ends) |
| Engine.TicTacToeGame.CountThreats | js/game.js:1379-1386 | the number of directions whose detectThreat holds |
| Patterns.ThreatCountFour | js/game.js:1379-1386 | that count is the sum over horizontal, vertical, diagonal and anti-diagonal |
| Engine.TicTacToeGame.DetectFork | js/game.js:1367-1393 | the probed cell is restored to its original value; the result is the fork rule on the board with the trial stone |
| Patterns.ForkIffTwoThreats | js/game.js:1367-1415 | a fork exactly when two different directions each satisfy detectThreat |
| Engine.TicTacToeGame.ScanOneSide | js/game.js:479-509 | one side's gap-tolerant scan: stones, gaps, and whether an empty cell was met before any stone |
| Patterns.ScanKeepsCount | js/game.js:490-504 | once a side has counted a stone its count never drops to zero and its open flag never changes |
| Patterns.FirstCellDecidesOpen | js/game.js:498-501 | a side is open exactly when the first cell it looks at is empty, and then it has no stones |
| Patterns.SideOpenMeaning | js/game.js:479-509 | a side is open exactly when the neighbouring cell on that side is empty, and an open side holds no stones |
| Patterns.ThreatTier | js/game.js:549-578 | the tier table yields 0, 20, 40, 60, 70, 90 or 100, and 100 exactly for four or more stones |
| Engine.TicTacToeGame.EvaluateDirectionalThreat | js/game.js:473-579 | the tier of the stone plus both sides' counts, open ends and gaps |
| Patterns.DirectionalThreatValues | js/game.js:473-579 | on every board the value is 0, 20, 60 or 100 |
| Engine.TicTacToeGame.EvaluateThreatLevel | js/game.js:437-468 | the four directions tallied (two points at 90 or more, one at 50 or more, the largest such value kept), as count * 100 + maximum; what that level means is Moves.ForkLevelMeaning |
| Patterns.TallyBounded | js/game.js:457-463 | one more direction keeps the maximum within 0..100, at 0 while nothing is counted and below 90 while the count is one |
| Patterns.ThreatLevelPartsBounds | js/game.js:445-464 | those bounds hold after any number of directions |
| Patterns.ThreatLevelPartsCount | js/game.js:445-464 | threatCount is the sum of the directions' weights: 2 at 90 or more, 1 at 50 or more, else 0 |
| Moves.ForkLevelMeaning | js/game.js:437-468 | a level of 2 or more (the threshold findAdvancedForkToBlock applies at js/game.js:417) holds exactly when one direction scores 90 or more, or two different directions score 50 or more |
| Moves.ForkLevelCases | js/game.js:437-579 | given the values a direction can take, that is exactly one direction of four stones (100) or two different directions scoring 60 |
| Engine.TicTacToeGame.PatternSide | js/game.js:1286-1307 | one side of evaluateDirectionalPatterns: the run of the symbol up to five cells, and 1 when it stops within five at an empty cell |
| Patterns.PatternRunsOfSides | js/game.js:1285-1314 | the line length is 1 plus both runs and the open ends are the two sides' sum |
| Engine.TicTacToeGame.LineRuns | js/game.js:1281-1314 | maxConsecutive and openEnds as both sides give them |
| Patterns.PatternRuns | js/game.js:1281-1314 | maxConsecutive lies in 1..11 and openEnds in 0..2 |
| Engine.TicTacToeGame.PlacedRuns | js/game.js:1277-1314 | the same pair on the board holding the trial stone, with the cell restored |
| Patterns.PatternScore | js/game.js:1316-1350 | the score table is never negative and is 10000 exactly for five or more |
| Patterns.PatternScoreMonotone | js/game.js:1316-1350 | a longer line or more open ends never scores less |
| Engine.TicTacToeGame.EvaluateDirectionalPatterns | js/game.js:1271-1358 | the cell is restored; score and threatLevel (length plus open ends) are those of the board holding the trial stone |
| Patterns.EncodeLine | js/game.js:356-372 | the pattern string has one character per on-board cell of the window, each the cell's encoding |
| Patterns.EncodeLineFaithful | js/game.js:361-367 | with a blocked marker distinct from the symbol and '.', the string reads back exactly which cells hold the symbol and which are empty |
| Patterns.EncodeLineAppend | js/game.js:356-372 | encoding two pieces of a line and joining them gives the encoding of the whole line |
| Engine.TicTacToeGame.BuildLine | js/game.js:352-372 | the string of the on-board cells at offsets -4..+4 |
| Patterns.ThreatPatterns | js/game.js:376-384 | seven threat patterns |
| Patterns.Contains | js/game.js:388 | `includes`: true exactly when the pattern occurs at some index |
| Engine.TicTacToeGame.MatchThreatPatterns | js/game.js:386-391 | true exactly when one of the seven patterns occurs in the line string |
| Engine.TicTacToeGame.DetectThreatInDirection | js/game.js:352-392 | the pattern threat of the line through (row, col) along dir |
| Patterns.CountFlagsMonotone | js/game.js:339-344 | counting over more directions never counts fewer |
| Patterns.CountFlagsImplies | js/game.js:339-344 | directions flagged wherever other flags hold are counted at least as often |
| Patterns.PatternThreatCountMonotone | js/game.js:339-344 | counting pattern threats over more directions never counts fewer |
| Patterns.PatternThreatCountNext | js/game.js:340-341 | one more direction adds one to the count exactly when it holds a threat |
| Engine.TicTacToeGame.DetectAdvancedFork | js/game.js:328-347 | true exactly when at least two of the four directions hold a pattern threat, though it stops at the second |
| Patterns.IsInLine | js/game.js:945-971 | true exactly when the second point is reached from the first by some whole multiple of the direction's step |
| Engine.TicTacToeGame.TrialWin | js/game.js:1075-1088 | the cell is restored and the winning cells are untouched; true exactly when the cell is empty and the trial stone makes a run of five |
| Engine.TicTacToeGame.FindWinningMove | js/game.js:1071-1093 | the board and the winning cells are unchanged; a result is a winning empty cell with none earlier in row-major order; none means no empty cell wins |
| Engine.TicTacToeGame.MakeHardAIMove | js/game.js:1054-1065 | Win exactly when the AI has a winning cell (the first one), even if the player has one too; Block exactly when the AI has none and the player has one (the player's first); otherwise the strategic search |
| Engine.TicTacToeGame.TrialFork | js/game.js:300-311 | the cell is restored; true exactly when the cell is empty and the trial stone makes an advanced fork |
| Engine.TicTacToeGame.PlacedFork | js/game.js:302-310 | on an empty cell: the advanced-fork verdict on the board holding the trial stone, with the cell emptied again |
| Engine.TicTacToeGame.ForkRow | js/game.js:299-312 | one row of the scan appends the row's fork cells, in column order |
| Moves.ForksBeforeNext | js/game.js:305-307 | one cell of the scan appends that cell exactly when it is a fork cell |
| Moves.CellsBeforeMeaning | js/game.js:298-313 | a row-major scan that keeps the cells a test accepts lists exactly those cells before the scan point, in strict row-major order |
| Moves.ForksMeaning | js/game.js:294-313 | the whole-board list is in strict row-major order and holds exactly the fork cells |
| Engine.TicTacToeGame.FindPotentialFork | js/game.js:294-323 | the board is unchanged; the fork list is in row-major order and holds exactly the empty cells where the symbol makes an advanced fork; null exactly when that list is empty, else the entry the random index picks |
| Engine.TicTacToeGame.TrialLevel | js/game.js:403-415 | the cell is restored; the threat level of the player's trial stone on an empty cell, 0 on an occupied one |
| Engine.TicTacToeGame.ThreatRow | js/game.js:402-421 | one row of the scan appends the row's cells whose level reaches 2, with their levels |
| Moves.ThreatsBeforeNext | js/game.js:417-419 | one cell of the scan appends an entry exactly when its level reaches 2 |
| Moves.LevelsBeforeMeaning | js/game.js:400-422 | the list holds, in row-major order, exactly the cells before the scan point whose level reaches 2, with their levels |
| Engine.TicTacToeGame.ScanThreats | js/game.js:398-422 | the board is unchanged; the list of every cell whose level reaches 2 |
| Moves.FirstMaxIndex | js/game.js:427-428 | an index of the greatest level with no equal level before it, as the stable descending sort puts first |
| Moves.FirstMaximumMeaning | js/game.js:424-428 | that entry is on the board, its level is the greatest on the board, and every earlier cell's level is lower |
| Moves.NoThreatsMeaning | js/game.js:425 | the list is empty exactly when no cell's level reaches 2 |
| Moves.BlockChoiceMeaning | js/game.js:424-428 | the chosen entry is the most serious cell to block |
| Moves.NothingToBlockMeaning | js/game.js:425-431 | the list is empty exactly when no empty cell lets the player reach level 2 |
| Engine.TicTacToeGame.FindAdvancedForkToBlock | js/game.js:397-432 | the board is unchanged. null exactly when no empty cell lets the player reach level 2. Otherwise an empty cell of greatest level, with that level, and no cell of the same level earlier in row-major order |
| Moves.OccupiedMonotone | js/game.js:209-216 | the count of stones scanned never decreases as the scan goes on |
| Moves.EmptyIffNoStones | js/game.js:205-218 | the stone count is 0 exactly when every cell is empty |
| Engine.TicTacToeGame.IsBoardMostlyEmpty | js/game.js:205-218 | true exactly when at most 8 cells are occupied, though it stops at the ninth stone |
| Moves.AddCell | js/game.js:1169 | `Set.add`: the result holds the old members and the new one, keeps the old order as a prefix, and stays free of duplicates |
| Engine.TicTacToeGame.AddNeighbourRow | js/game.js:1156-1171 | one row of the window adds exactly its empty on-board cells within the column range, keeping earlier members in front |
| Engine.TicTacToeGame.AddNeighbours | js/game.js:1155-1172 | around one stone, adds exactly the empty cells within the proximity |
| Moves.NearBeforeNext | js/game.js:1151-1175 | passing one more cell of the scan adds exactly the cells near it |
| Moves.NearBeforeRowEnd | js/game.js:1151-1175 | the end of a row is the start of the next; after the whole board, near means near some stone; before the scan starts, nothing is near |
| Engine.TicTacToeGame.NearRow | js/game.js:1152-1174 | one row of the scan keeps the set equal to the empty cells near the stones scanned so far |
| Engine.TicTacToeGame.NearbyEmptyCells | js/game.js:1147-1175 | distinct cells, exactly the empty cells within the proximity of some stone |
| Engine.TicTacToeGame.FindCandidateMoves | js/game.js:1146-1185 | distinct cells, exactly the empty cells within Chebyshev distance 2 of some stone |
| Moves.NoStonesNoCandidates | js/game.js:1146-1185 | on a board with no stone there is no candidate |
| Moves.CandidateWidens | js/game.js:609-659 | every candidate at distance 2 is a candidate at distance 3 |
| Engine.TicTacToeGame.AddCentre | js/game.js:641-649 | adds exactly the empty cells of rows and columns 7..12, keeping earlier members in front |
| Engine.TicTacToeGame.FindExpandedCandidateMoves | js/game.js:609-659 | the empty cells within distance 3 of a stone come first. When there are fewer than ten of them, the empty centre cells are added; nothing else is |
| PatternsAsWritten.SplitByOpponentLine | js/game.js:356-369 | on the example board the window through (10, 10) is four empties, X, O, X and two empties |
| PatternsAsWritten.AsWrittenSeesPhantomThree | js/game.js:361-388 | with 'X' as the blocked marker an O stone encodes as the symbol X, and the example line is reported as a threat for X |
| PatternsAsWritten.CorrectedSeesNoThree | js/game.js:361-388 | with a distinct blocked marker the same line holds none of the seven patterns |
| PatternsAsWritten.PatternAlphabet | js/game.js:376-384 | each threat pattern is written with the symbol and '.' only |
| PatternsAsWritten.EncodingsAgree | js/game.js:361-367 | two encodings of the same cells show the same symbol and '.' characters where the first shows them, when its blocked marker is neither |
| PatternsAsWritten.ThreatCarries | js/game.js:386-389 | a threat pattern that occurs in one string occurs in any string agreeing with it there |
| PatternsAsWritten.CorrectedThreatIsAsWrittenThreat | js/game.js:352-392 | every direction the model finds a threat in, the engine's 'X'-marker string finds one in too |
| PatternsAsWritten.AsWrittenThreatForO | js/game.js:352-392 | for symbol O the engine's string and the model's show exactly the same threats |
| PatternsAsWritten.CorrectedForkIsAsWrittenFork | js/game.js:328-347 | every advanced fork of the model is one for the engine as written |
| PatternsAsWritten.AsWrittenForkForO | js/game.js:328-347 | for symbol O the model's advanced-fork verdict is exactly the engine's |

## Left out

- `js/ui.js` is not part of this model: it builds the page, handles events and shows a modal.
- The AI moves that depend on chance or floating point are not modelled, because they have no exact contract:
  - `makeAiMove`, `makeEasyAIMove` and `findGoodCenterMove`;
  - `evaluateCenterPosition`, `findAdvancedEasyStrategicMove` and `getAdvancedEasyScore`;
  - `scoreAdvancedDirection`, `evaluatePositionContext` and `checkLineFormation`;
  - `findDecentMove`, `getSimplifiedScore` and `findEnhancedStrategicMove`;
  - `enhancedScorePosition`;
  - the unused `findStrategicMove`, `scorePosition` and `scoreDirection`.
- Engine.TicTacToeGame.MakeHardAIMove: the third outcome, the strategic search, is the bare `Strategic`, because that search scores cells in floating point, breaks ties among equal scores at random (js/game.js:1134) and picks a random centre cell when there is no candidate (js/game.js:1109-1110).
- Engine.TicTacToeGame.FindPotentialFork: `Math.random` is the parameter `pick`, and the choice is stated as the entry at `pick % |list|` of the fork list.
- Engine.TicTacToeGame.Tick: `setInterval` and `clearInterval` are a `timerRunning` flag, and each interval callback is one `Tick` call. The object that callback returns is dropped by the timer, so it is not modelled.
- Engine.TicTacToeGame.Init: the `setTimeout` that starts the AI after 500 ms is not modelled (X always starts, so it matters only when the player chose O). The arguments are typed: the symbol is X or O, the difficulty is Easy or Hard.
- Engine.TicTacToeGame.MakeMove: the move is required to be on the board. For an out-of-range row the engine throws. For an in-range row with an out-of-range column it reads `undefined`, which is not "", and returns `{valid: false}`; that Invalid case is excluded here rather than modelled, since no caller makes such a move. The result carries neither the board (the class field is the board) nor the message strings.
- Engine.TicTacToeGame.CheckWin: the cell is required to be on the board, as every caller's is.
- Engine.TicTacToeGame.EvaluateThreatLevel: `threatCount + maxThreatValue / 100` is a float, modelled as `threatCount * 100 + maxThreatValue`. This orders values the same way, and the threshold 2 becomes 200 (`ForkLevel`).
- Engine.TicTacToeGame.EvaluateDirectionalPatterns: the `dirPair` argument is a direction and its reverse, the only pairs the engine passes, so it is one `Dir` scanned forwards and backwards.
- Engine.TicTacToeGame.FindAdvancedForkToBlock: `Array.prototype.sort` with a descending comparator is stable, so its first element is modelled as the first entry of greatest level in scan order.
- Engine.TicTacToeGame.NearbyEmptyCells: like FindCandidateMoves below, the cells are stated by membership and distinctness, not by the insertion order of the `Set`.
- Engine.TicTacToeGame.FindCandidateMoves: the `Set` of `"row,col"` strings is a duplicate-free sequence of positions. Its membership is stated exactly, but not the insertion order that `Set.forEach` follows.
- Engine.TicTacToeGame.FindExpandedCandidateMoves: as for FindCandidateMoves, the order within the near cells and within the added centre cells is not stated. Only the near cells' place in front of the centre cells is.
- Engine.TicTacToeGame.CountOpenEnds: the engine walks both runs and then inspects the two end cells; the model takes each end's run and its neighbour together. These are reads only, so the result is the same.
- Engine.TicTacToeGame.constructor: the `lastAiMove` field is not modelled; only the AI move routine (js/game.js:148) and js/ui.js (js/ui.js:164, js/ui.js:301) write it, and both are left out.
- The `winningLength` field is the constant `WinningLength` (5), and the board size is the constant `Size` (20); the engine never changes either.
- Engine.TicTacToeGame.DetectThreatInDirection: uses the corrected blocked marker described under Findings, not the engine's 'X'. For symbol O the two agree (PatternsAsWritten.AsWrittenThreatForO). For symbol X the engine can report threats the model does not, never the reverse (PatternsAsWritten.CorrectedThreatIsAsWrittenThreat).
- Engine.TicTacToeGame.DetectAdvancedFork: inherits the corrected marker. For O it is exactly the engine's verdict; for X the engine may say true where the model says false (PatternsAsWritten.AsWrittenForkForO, PatternsAsWritten.CorrectedForkIsAsWrittenFork).
- Engine.TicTacToeGame.PlacedFork: inherits the corrected marker, as DetectAdvancedFork does.
- Engine.TicTacToeGame.TrialFork: inherits the corrected marker, as DetectAdvancedFork does.
- Engine.TicTacToeGame.ForkRow: inherits the corrected marker; for X the engine's row may hold more cells.
- Moves.ForksMeaning: the fork cells are those of the corrected marker; for X the engine's list can hold further cells, and the model's list is contained in it.
- Engine.TicTacToeGame.FindPotentialFork: its fork list is the corrected one. For O it is the engine's list. For X (the AI's symbol when the player chose O) the engine's list contains the model's and may hold more, so the engine can pick a cell the model does not list.

## Findings

| source | as written | input that shows it | evidently intended | confidence | as-written member | corrected member |
|---|---|---|---|---|---|---|
| js/game.js:361-367 | a cell holding neither the symbol nor empty is written as the letter 'X' whatever the symbol, so for symbol X an O stone reads as an X stone | X at (10,10) and (10,12), O at (10,11), otherwise empty: for X the row through (10,10) reads "....XXX..", which matches ".XXX." | opponent stones block the pattern: a marker distinct from both symbols and '.' | high, not executed | PatternsAsWritten.AsWrittenSeesPhantomThree | PatternsAsWritten.CorrectedSeesNoThree |
