# Game engines of the games hub, modelled in Dafny

The games hub's front end has eight browser games. Each is a React component whose rules sit
in `useState` variables and in the handlers that change them. This project models the rule
engine of each game:

- Checkers: diagonal steps and captures, king promotion, multi-jump continuation, win detection.
- Chess, simplified: move generation for the six piece kinds on an 8×8 board; alternating turns,
  a captured-piece list and a move history. There is no check, castling, en passant or promotion.
- 2048: slide, merge and slide over rows and columns; random tile insertion; the `canMove`
  game-over test; the non-terminal `won` status.
- Tower of Hanoi: three stacks with the top disk last; the legality test, move-and-count, the
  win test and click selection.
- Minesweeper: mine placement and neighbour counts, the breadth-first flood fill, loss on a mine,
  the win count, and flag toggling with a flag counter.
- Tic-Tac-Toe: the eight winning patterns, alternating placement, draws and score tallies.
- Memory Matching: the pair deck and its Fisher–Yates shuffle, the card-click guards, pair
  evaluation with a move counter, and the won test.
- Snake: one tick (head advance, wall and self collision, grow or shift, food respawn) and the
  direction and start keys.

Each game is one module (`Checkers`, `Chess`, `Game2048` with the line logic in `Line2048`,
`TowerOfHanoi`, `Minesweeper`, `TicTacToe`, `MemoryMatching`, `Snake`). `Common` holds the
`Option` type.

Each module has a class `Game`:

- Its fields are the component's state variables.
- Its methods are the handlers and they `modify this`.
- A handler and the effect it sets off run as one step. Examples are the Tic-Tac-Toe board
  effect, the Memory pair evaluation and the Checkers `makeMove` follow-up.
- Each class keeps an invariant `Valid()`. Where the game has one, it is the game's
  conservation law. For Hanoi, every disk is on exactly one tower and each tower is strictly
  decreasing. For Chess and Checkers, every piece is on the board or in the captured tally of its
  colour. For Minesweeper, `flagCount` plus the flags placed is 15.

The rules themselves are pure functions, plus methods for the loops of the original code.
Each loop method is proved equal to a function, or is characterised by a ghost predicate or by
postconditions; the properties of those functions and predicates are proved as lemmas. Some loop
methods are characterised only by properties:

- `Minesweeper.FloodFill` states which cells it reveals, that every revealed cell is chained to
  the clicked cell, and that every opened zero cell's neighbourhood is settled. It is not equated
  with a function.
- The Chess move loops (`PawnMoves`, `OffsetMoves`, `RayMoves`, `SlideMoves`, `GetValidMoves`)
  state membership: a square is generated if and only if a ghost target predicate holds.

Two loop methods work on an array in place, as the source does: `Line2048.CombineArray` and the
shuffle in `MemoryMatching.GenerateBoard`. The shuffle's result is the function `Shuffled`
applied to the deck and the swap draws.

Random draws are parameters:

- 2048: the two `Math.random()` values, as reals in [0, 1).
- Minesweeper: the stream of mine positions.
- Snake: the stream of food cells.
- Memory: the Fisher–Yates swap indices.

The model follows the code wherever the code and the games' description differ:

- Checkers, click path. `getValidMoves` records plain steps only when `checkCaptures` is false.
  The click handler calls it with the default, `true`, so a click can only play a capture.
  `Checkers.StartFrozen` proves that no click changes the starting board.
- Minesweeper, loss. On a loss every mine is revealed, flagged mines included. So after a loss
  a cell can be both revealed and flagged.
- Snake, reversal. The reversal guard compares the key with the pending direction, not with the
  last step taken. So two keys pressed between ticks can reverse the snake, as
  `Snake.TwoKeysReverse` shows.

## Model

| member | source | states |
|---|---|---|
| TicTacToe.PatternsWellFormed | frontend/src/games/TicTacToe.js:11-15 | eight patterns of three squares, every index on the 3×3 board |
| TicTacToe.WinnerFrom | frontend/src/games/TicTacToe.js:18-24 | the pattern loop from pattern i: None iff no later pattern wins; otherwise the first winning pattern from i on, with its mark |
| TicTacToe.CalculateWinner | frontend/src/games/TicTacToe.js:17-25 | null iff no pattern has three equal marks; otherwise the first such pattern in listed order, with its mark |
| TicTacToe.CountPlace | frontend/src/games/TicTacToe.js:50-51 | filling an empty square with m adds one m and leaves the other mark's count |
| TicTacToe.TopRowWin | frontend/src/games/TicTacToe.js:17-25 | example: X on the whole top row is reported as an X win on [0, 1, 2] |
| TicTacToe.EmptyBoardState | frontend/src/games/TicTacToe.js:5-6 | the empty board has no winner, is not full, and has X to move with alternating counts |
| TicTacToe.Game.constructor | frontend/src/games/TicTacToe.js:5-9 | an empty board, X to move, no winner, all tallies zero |
| TicTacToe.Game.BoardEffect | frontend/src/games/TicTacToe.js:27-43 | a winning board records the winner and its line and adds one to that player's tally; a full board without a winner records a draw and adds one draw; otherwise nothing changes |
| TicTacToe.Game.HandleClick | frontend/src/games/TicTacToe.js:45-54 | an occupied square or a finished game changes nothing; otherwise the mover's mark goes on that square only and the turn passes; a finished board adds one to exactly the matching tally; the X/O counts stay alternating |
| TicTacToe.Game.ResetGame | frontend/src/games/TicTacToe.js:56-61 | an empty board with X to move and no winner; the tallies are kept |
| TicTacToe.Game.ResetScores | frontend/src/games/TicTacToe.js:63-66 | all tallies zero and a fresh game |
| TowerOfHanoi.Pow2 | frontend/src/games/TowerOfHanoi.js:36 | 2^n is at least one, so `minMoves` = 2^n − 1 is a natural number |
| TowerOfHanoi.Moved | frontend/src/games/TowerOfHanoi.js:72-74 | the source tower loses its top disk, the destination gains it on top, and the third tower is untouched |
| TowerOfHanoi.TotalAfterMove | frontend/src/games/TowerOfHanoi.js:72-74 | a move keeps the multiset of disks on the three towers |
| TowerOfHanoi.PushKeepsDecreasing | frontend/src/games/TowerOfHanoi.js:73-74 | pushing a disk smaller than the top keeps a tower strictly decreasing |
| TowerOfHanoi.PopKeepsDecreasing | frontend/src/games/TowerOfHanoi.js:73 | popping the top keeps a tower strictly decreasing |
| TowerOfHanoi.MovePreservesValid | frontend/src/games/TowerOfHanoi.js:65-76 | a move `canMoveDisk` allows is between different towers and keeps every tower strictly decreasing and each disk 0..n-1 on exactly one tower |
| TowerOfHanoi.TowerAfterMove | frontend/src/games/TowerOfHanoi.js:65-76 | after an allowed move each single tower is still strictly decreasing |
| TowerOfHanoi.AllDisksSize | frontend/src/games/TowerOfHanoi.js:27-29 | there are n disks |
| TowerOfHanoi.AllDisksBound | frontend/src/games/TowerOfHanoi.js:27-29 | every disk is below n |
| TowerOfHanoi.DisksBelow | frontend/src/games/TowerOfHanoi.js:24-29 | on legal towers every disk is below n |
| TowerOfHanoi.FullTower | frontend/src/games/TowerOfHanoi.js:80 | legal towers whose tower k holds n disks hold [n-1, …, 0] on k and nothing elsewhere |
| TowerOfHanoi.Descending | frontend/src/games/TowerOfHanoi.js:27-29 | the tower [n-1, …, 0] bottom first: position i holds n-1-i |
| TowerOfHanoi.DescendingDisks | frontend/src/games/TowerOfHanoi.js:27-29 | that tower holds each disk 0..n-1 once and is strictly decreasing |
| TowerOfHanoi.DecreasingBelow | frontend/src/games/TowerOfHanoi.js:80 | n strictly decreasing disks below n are exactly n-1, …, 0 |
| TowerOfHanoi.FillFirstTower | frontend/src/games/TowerOfHanoi.js:25-29 | the push loop builds [n-1, …, 0] |
| TowerOfHanoi.MoveKeepsState | frontend/src/games/TowerOfHanoi.js:65-84 | an allowed move keeps the invariant, with status won exactly when tower 2 then holds all n disks |
| TowerOfHanoi.StartState | frontend/src/games/TowerOfHanoi.js:24-37 | the set-up state (all disks in order on tower 0, no selection, playing, 2^n − 1 minimum moves) satisfies the invariant |
| TowerOfHanoi.Game.constructor | frontend/src/games/TowerOfHanoi.js:39-41 | the mount effect: tower 0 is [n-1, …, 0], towers 1 and 2 are empty, moves 0, minMoves 2^n − 1 |
| TowerOfHanoi.Game.InitializeGame | frontend/src/games/TowerOfHanoi.js:24-37 | the same fresh state for the chosen disk count, whatever came before |
| TowerOfHanoi.Game.MoveDisk | frontend/src/games/TowerOfHanoi.js:65-84 | an illegal move changes nothing; a legal one moves the top disk, adds one move, and sets won iff tower 2 then holds every disk |
| TowerOfHanoi.Game.HandleTowerClick | frontend/src/games/TowerOfHanoi.js:86-104 | a won game ignores clicks; with no selection, a non-empty tower is selected; the selected tower deselects; any other click tries the move and always clears the selection |
| TowerOfHanoi.Game.WonIsSolved | frontend/src/games/TowerOfHanoi.js:79-83 | once won, every disk is on tower 2 in order and towers 0 and 1 are empty |
| Snake.NextHead | frontend/src/games/Snake.js:45-48 | the new head is the old head plus the direction vector; for a unit direction it is an orthogonal neighbour of the old head, and the opposite direction leads back |
| Snake.GenerateFood | frontend/src/games/Snake.js:16-26 | the food is the first draw that is not on the snake |
| Snake.Steer | frontend/src/games/Snake.js:92-107 | a vertical key is taken only while moving horizontally and a horizontal key only while moving vertically; a unit direction stays a unit direction and never becomes its opposite |
| Snake.TwoKeysReverse | frontend/src/games/Snake.js:92-107 | Left then Down pressed between two ticks turns an upward snake downward |
| Snake.Game.constructor | frontend/src/games/Snake.js:10-14 | the initial snake, food and direction, paused, score 0 |
| Snake.Game.ResetGame | frontend/src/games/Snake.js:28-34 | the same initial state |
| Snake.Game.MoveSnake | frontend/src/games/Snake.js:40-74 | outside playing nothing changes; a head off the arena or on any segment, the tail included, ends the game and keeps the snake; on food the snake grows by the head, scores 10 and the new food is off the new snake; otherwise the head is added and the tail dropped, length unchanged; segments stay in bounds and distinct |
| Snake.Game.KeyPress | frontend/src/games/Snake.js:82-108 | Space starts a paused game; arrow keys steer only while playing and never reverse the pending direction; otherwise nothing changes |
| MemoryMatching.Exchanged | frontend/src/games/MemoryMatching.js:40 | positions i and j trade cards, every other position keeps its card, and the multiset is kept |
| MemoryMatching.Shuffled | frontend/src/games/MemoryMatching.js:38-41 | applying the swap draws at positions n down to 1 keeps the length and the multiset of cards |
| MemoryMatching.GenerateBoard | frontend/src/games/MemoryMatching.js:27-44 | the pair loop then the Fisher–Yates loop give exactly `Shuffled` of the deck under the drawn swap indices: 16 cards that are a permutation of the deck |
| MemoryMatching.Swap | frontend/src/games/MemoryMatching.js:40 | exchanges two cards of the array in place (`Exchanged`) and keeps the multiset |
| MemoryMatching.ShuffledDeck | frontend/src/games/MemoryMatching.js:27-44 | any shuffle of the deck has ids 0..15 each exactly once, and each card's icon is its id halved |
| MemoryMatching.IconTwice | frontend/src/games/MemoryMatching.js:29-35 | each of the 8 icons lies on exactly two cards of a shuffled deck |
| MemoryMatching.MatchedBound | frontend/src/games/MemoryMatching.js:82 | distinct indices into the board number at most the board length |
| MemoryMatching.Game.constructor | frontend/src/games/MemoryMatching.js:56-58 | the mount effect: a shuffled deck, nothing flipped or matched, 0 moves, ready |
| MemoryMatching.Game.ResetGame | frontend/src/games/MemoryMatching.js:46-54 | a newly shuffled deck and every counter back to the start |
| MemoryMatching.Game.EvaluatePair | frontend/src/games/MemoryMatching.js:72-95 | with two cards flipped the move count goes up by one; a matching pair joins the matched list, flipped is cleared, and the game is won iff every card is matched; a mismatched pair stays up |
| MemoryMatching.Game.HandleCardClick | frontend/src/games/MemoryMatching.js:97-113 | a won game, two cards already up, or a flipped or matched card change nothing; otherwise ready becomes playing, the card is turned up, and a second card sets off the pair evaluation; flipped holds at most two distinct unmatched indices |
| MemoryMatching.Game.FlipBack | frontend/src/games/MemoryMatching.js:88-90 | the delayed flip-back clears the flipped cards and nothing else |
| Minesweeper.AllCells | frontend/src/games/Minesweeper.js:37-38 | the 100 cells in the row-major order of the nested loops |
| Minesweeper.AllCellsFacts | frontend/src/games/Minesweeper.js:37-38 | every on-board cell appears in that order exactly once |
| Minesweeper.WindowFacts | frontend/src/games/Minesweeper.js:41-53 | the offset loops visit each position at most one step away in each direction, once |
| Minesweeper.MinesPlacedFacts | frontend/src/games/Minesweeper.js:24-34 | the mined cells are drawn cells, there are at most 15, and while fewer than 15 every drawn cell is mined |
| Minesweeper.MinesPlacedSaturated | frontend/src/games/Minesweeper.js:26 | once 15 mines are down, later draws change nothing |
| Minesweeper.MinesPlacedCount | frontend/src/games/Minesweeper.js:24-34 | draws covering at least 15 cells leave exactly 15 distinct mines, all on drawn cells |
| Minesweeper.DrawsLeft | frontend/src/games/Minesweeper.js:26-28 | while fewer than 15 mines are down the loop has a draw left |
| Minesweeper.PlaceStep | frontend/src/games/Minesweeper.js:30-33 | a draw while fewer than 15 are down mines its cell, whether new or already mined |
| Minesweeper.PlaceMines | frontend/src/games/Minesweeper.js:24-34 | the placement loop: each cell is mined iff placed, and otherwise blank |
| Minesweeper.NeighbourMinesCounts | frontend/src/games/Minesweeper.js:36-57 | a safe cell's count is the number of mined on-board cells among its eight neighbours |
| Minesweeper.SameMinesSameCounts | frontend/src/games/Minesweeper.js:39-54 | boards with the same mines have the same counts |
| Minesweeper.CountAround | frontend/src/games/Minesweeper.js:40-53 | the offset loops compute the mine count of the 3×3 window |
| Minesweeper.CountOffsetRow | frontend/src/games/Minesweeper.js:42-52 | the inner offset loop adds the mines of one row of the window |
| Minesweeper.WindowStep | frontend/src/games/Minesweeper.js:43-51 | each offset adds one exactly when its cell is on the board and mined |
| Minesweeper.CountedStep | frontend/src/games/Minesweeper.js:37-56 | giving a safe cell its count, or skipping a mine, advances the counting loop |
| Minesweeper.ComputeCounts | frontend/src/games/Minesweeper.js:36-57 | every safe cell gets its window's mine count; mines and every other field are unchanged |
| Minesweeper.InitializeGrid | frontend/src/games/Minesweeper.js:14-60 | placement then counting: the dealt board for the given draws |
| Minesweeper.DealtFacts | frontend/src/games/Minesweeper.js:14-60 | a dealt board has 15 mines, correct counts, 85 hidden safe cells, no flag and no mine shown |
| Minesweeper.RevealMines | frontend/src/games/Minesweeper.js:95-105 | every mine is shown and every other cell is as it was |
| Minesweeper.SkipStep | frontend/src/games/Minesweeper.js:115-126 | dropping a seen, off-board, revealed, flagged or mined position keeps the flood-fill invariant |
| Minesweeper.ReachedStays | frontend/src/games/Minesweeper.js:128 | revealing one more cell keeps every reached position reached |
| Minesweeper.StartReached | frontend/src/games/Minesweeper.js:108 | the clicked cell, the first one queued, is reached |
| Minesweeper.ReachedExtend | frontend/src/games/Minesweeper.js:131-135 | a neighbour of a reached cell opened with count 0, as the fill queues it, is reached |
| Minesweeper.NumberedStartAlone | frontend/src/games/Minesweeper.js:128-136 | a spread from a cell with a mine around it opens that cell and no other |
| Minesweeper.RevealStep | frontend/src/games/Minesweeper.js:128-136 | revealing the next hidden safe cell, and queueing its window when its count is 0, keeps the invariant |
| Minesweeper.HiddenDrops | frontend/src/games/Minesweeper.js:128 | revealing a hidden cell lowers the hidden count, so the fill terminates |
| Minesweeper.PushWindow | frontend/src/games/Minesweeper.js:131-135 | the queueing loops append the 3×3 window in offset order |
| Minesweeper.FloodFill | frontend/src/games/Minesweeper.js:107-137 | the fill only reveals cells and hides none; it never reveals a mine or a flagged cell; it leaves the start settled; every cell it reveals ends a chain of neighbouring cells from the start in which every cell but the last was opened with a count of 0; every neighbour of such an opened zero cell is settled |
| Minesweeper.CountRevealedSafe | frontend/src/games/Minesweeper.js:140-147 | the counting loops find the number of revealed safe cells |
| Minesweeper.WinTest | frontend/src/games/Minesweeper.js:149 | with 15 mines, 85 revealed safe cells means no safe cell is hidden, and conversely |
| Minesweeper.LossFacts | frontend/src/games/Minesweeper.js:95-105 | showing the mines keeps mines, flags and counts and shows at least one mine |
| Minesweeper.FillFacts | frontend/src/games/Minesweeper.js:107-137 | a safe fill keeps mines, flags and counts and shows no new mine |
| Minesweeper.FlagFacts | frontend/src/games/Minesweeper.js:165-168 | flipping one flag moves the flag total by exactly one and keeps every other count |
| Minesweeper.Game.constructor | frontend/src/games/Minesweeper.js:70-72 | the mount effect: a dealt board, playing, 15 flags in the counter |
| Minesweeper.Game.ResetGame | frontend/src/games/Minesweeper.js:62-68 | a newly dealt board, playing, 15 flags in the counter |
| Minesweeper.Game.RevealCell | frontend/src/games/Minesweeper.js:84-156 | outside playing, or on a revealed or flagged cell, nothing changes; a mine shows every mine and loses; a safe cell is flood-filled, opening only cells chained to it through opened zero cells and stopping only at settled cells, and the game is won iff all 85 safe cells are revealed; the flag counter is kept |
| Minesweeper.Game.ToggleFlag | frontend/src/games/Minesweeper.js:158-170 | outside playing or on a revealed cell nothing changes; otherwise that cell's flag flips, the counter moves the other way, and counter plus flags stays 15 |
| Line2048.NonZeros | frontend/src/games/Game2048.js:75 | the filter keeps only non-zero values and is no longer than its input |
| Line2048.SlideArray | frontend/src/games/Game2048.js:74-79 | a slid line has the grid's length |
| Line2048.SlideArrayFacts | frontend/src/games/Game2048.js:74-79 | sliding keeps the non-zero values in order, packs them before the zeros, keeps the tile sum, and is idempotent |
| Line2048.CombineFrom | frontend/src/games/Game2048.js:83-93 | the combine loop from position i keeps the length and the tile sum |
| Line2048.SumMerge | frontend/src/games/Game2048.js:85-86 | turning an equal pair (v, v) into (2v, 0) keeps the sum |
| Line2048.CombineArray | frontend/src/games/Game2048.js:81-95 | the in-place loop on an array computes the line, score and 2048 flag of the combine pass |
| Line2048.ProcessLine | frontend/src/games/Game2048.js:104-106 | slide, combine, slide keeps the grid's length |
| Line2048.ProcessLineFacts | frontend/src/games/Game2048.js:104-106 | a processed line keeps the tile sum, with every non-zero before every zero |
| Line2048.ExamplePair | frontend/src/games/Game2048.js:103-106 | example: [2,2,0,0] becomes [4,0,0,0] and scores 4 |
| Line2048.ExampleFour | frontend/src/games/Game2048.js:103-106 | example: [2,2,2,2] becomes [4,4,0,0] and scores 8: a merged tile does not merge again |
| Line2048.MergePairs | frontend/src/games/Game2048.js:81-95 | the independent pairwise merge of the packed tiles is no longer than its input |
| Line2048.CombineFromFrame | frontend/src/games/Game2048.js:83-93 | the combine loop from i never touches cells before i |
| Line2048.CombineFromIsMergePairs | frontend/src/games/Game2048.js:83-93 | on packed tiles followed by zeros, the combine loop from i gives the pairwise merge, its score and its 2048 flag |
| Line2048.KeepStep | frontend/src/games/Game2048.js:84 | a tile unequal to its neighbour is kept and the loop moves on |
| Line2048.MergeStep | frontend/src/games/Game2048.js:84-87 | an equal pair merges into one tile and the loop skips the emptied cell |
| Line2048.MergeUnfold | frontend/src/games/Game2048.js:85-87 | a merge at i scores 2v, flags 2048 iff 2v is 2048, and continues at i + 2 |
| Line2048.ProcessLineIsMergePairs | frontend/src/games/Game2048.js:103-106 | processing a line is the pairwise merge of its non-zero tiles padded with zeros, with the same score and flag |
| Line2048.MergePairsTiles | frontend/src/games/Game2048.js:85 | merging powers of two yields powers of two |
| Line2048.ProcessLineTiles | frontend/src/games/Game2048.js:103-106 | a line of tiles stays a line of tiles |
| Line2048.MergePairsIdentity | frontend/src/games/Game2048.js:84 | tiles with no equal neighbours merge into themselves and score nothing |
| Line2048.MergePairsNoMerge | frontend/src/games/Game2048.js:84 | the merge scores nothing iff it changes nothing; 2048 needs a merge; the result has no zeros |
| Line2048.ProcessLineIdentity | frontend/src/games/Game2048.js:103-106 | a full line with no equal neighbours is left as it is and scores nothing |
| Line2048.ProcessLineUnchanged | frontend/src/games/Game2048.js:108 | a line stays put iff it is already packed and scores nothing; a 2048 requires points |
| Game2048.ReverseReverse | frontend/src/games/Game2048.js:125-129 | reversing twice gives the line back |
| Game2048.LineOf | frontend/src/games/Game2048.js:97-208 | each line a move reads has the grid's length |
| Game2048.ProcessedUpTo | frontend/src/games/Game2048.js:102-114 | the first n processed lines, each of the grid's length |
| Game2048.Processed | frontend/src/games/Game2048.js:102-114 | the four processed lines of a move, each of the grid's length |
| Game2048.ProcessedAt | frontend/src/games/Game2048.js:102-114 | processed line k is line k of the grid through slide, combine, slide |
| Game2048.Placed | frontend/src/games/Game2048.js:97-208 | writing four lines back gives a 4×4 grid |
| Game2048.Move | frontend/src/games/Game2048.js:97-208 | a move gives a 4×4 grid |
| Game2048.LoopedStep | frontend/src/games/Game2048.js:102-114 | one more processed line adds its score, its change and its 2048 flag to the running totals |
| Game2048.ProcessRow | frontend/src/games/Game2048.js:103-106 | `slideArray`, `combineArray` on an array, `slideArray`: the processed line, score and flag |
| Game2048.RowStep | frontend/src/games/Game2048.js:125-135 | one row of `moveLeft` or `moveRight`: the new grid gains the processed row (reversed back for right), the score gains that row's points, the 2048 flag that row's flag, and `moved` becomes true iff the new row differs from the old |
| Game2048.MoveRows | frontend/src/games/Game2048.js:97-140 | the row loop computes the left (or right) move |
| Game2048.MoveLeft | frontend/src/games/Game2048.js:97-117 | `moveLeft` computes the left move |
| Game2048.MoveRight | frontend/src/games/Game2048.js:119-140 | `moveRight` computes the right move |
| Game2048.ReadColumn | frontend/src/games/Game2048.js:148-151 | reads column j from the top, or from the bottom for down |
| Game2048.WriteColumn | frontend/src/games/Game2048.js:166-168 | writes a line into column j and keeps every other cell |
| Game2048.ColumnStep | frontend/src/games/Game2048.js:147-171 | one column of `moveUp` or `moveDown`: column j of the new grid becomes the processed column (bottom-up for down) and every other cell is kept; the score, 2048 flag and `moved` gain that column's points, flag and change |
| Game2048.MoveColumns | frontend/src/games/Game2048.js:142-208 | the column loop computes the up (or down) move |
| Game2048.MoveUp | frontend/src/games/Game2048.js:142-174 | `moveUp` computes the up move |
| Game2048.MoveDown | frontend/src/games/Game2048.js:176-208 | `moveDown` computes the down move |
| Game2048.PlacedLinesOf | frontend/src/games/Game2048.js:108 | writing back the lines just read gives the grid again |
| Game2048.LineOfPlaced | frontend/src/games/Game2048.js:108 | reading back the lines just written gives the lines again |
| Game2048.AnyMovedIff | frontend/src/games/Game2048.js:108-110 | the `moved` flag is set iff some line differs from the line it came from |
| Game2048.PlacedUnchangedIff | frontend/src/games/Game2048.js:108-110 | the written grid equals the old one iff every line is unchanged |
| Game2048.MovedIff | frontend/src/games/Game2048.js:108-110 | `moved` is true exactly when the move changes the grid |
| Game2048.MoveTiles | frontend/src/games/Game2048.js:97-208 | a move turns a grid of tiles into a grid of tiles |
| Game2048.ScoreMeansMoved | frontend/src/games/Game2048.js:231-234 | a move that scores or makes 2048 changes the grid |
| Game2048.RightIsMirroredLeft | frontend/src/games/Game2048.js:119-140 | `moveRight` is `moveLeft` on the mirrored grid, mirrored back, with the same score and flags |
| Game2048.DownIsFlippedUp | frontend/src/games/Game2048.js:176-208 | `moveDown` is `moveUp` on the upside-down grid, turned back, with the same score and flags |
| Game2048.CanMove | frontend/src/games/Game2048.js:50-72 | true iff some cell is empty or two orthogonally adjacent cells are equal |
| Game2048.StuckLine | frontend/src/games/Game2048.js:50-72 | on a grid `canMove` rejects, every line is full and has no equal neighbours |
| Game2048.StuckGrid | frontend/src/games/Game2048.js:236-238 | on a grid `canMove` rejects, no direction changes the grid, scores or makes 2048 |
| Game2048.EmptyCellsFacts | frontend/src/games/Game2048.js:14-24 | the collected list holds exactly the empty cells, and is empty iff no cell is |
| Game2048.PickIndex | frontend/src/games/Game2048.js:27 | `Math.floor(draw * n)` for a draw in [0, 1) is an index below n |
| Game2048.ChosenCell | frontend/src/games/Game2048.js:27 | the picked cell is on the grid |
| Game2048.PlaceTile | frontend/src/games/Game2048.js:13-31 | adding a tile gives a 4×4 grid |
| Game2048.PlaceTileFacts | frontend/src/games/Game2048.js:13-31 | no empty cell: the grid is unchanged; otherwise exactly one previously empty cell becomes 2 or 4 and every other cell is unchanged |
| Game2048.PlaceTileTiles | frontend/src/games/Game2048.js:28 | a new tile keeps a grid of tiles a grid of tiles |
| Game2048.AddRandomTile | frontend/src/games/Game2048.js:13-31 | the collect-then-write code computes the tile placement for the two draws |
| Game2048.InitialGrid | frontend/src/games/Game2048.js:33-38 | the start grid is a 4×4 grid |
| Game2048.InitializeGrid | frontend/src/games/Game2048.js:33-38 | `initializeGrid` computes the start grid for its draws |
| Game2048.TwoTilesOnEmpty | frontend/src/games/Game2048.js:34-36 | two tiles on an empty grid land on two different cells, each 2 or 4, the rest empty |
| Game2048.InitialGridFacts | frontend/src/games/Game2048.js:33-38 | the start grid has two tiles of 2 or 4 in different cells, is empty elsewhere, holds only tiles, and `canMove` accepts it |
| Game2048.MoveIn | frontend/src/games/Game2048.js:213-229 | the switch over the direction computes that direction's move |
| Game2048.NoMoveNoChange | frontend/src/games/Game2048.js:231-239 | a move that changes nothing adds no tile, no points and no 2048 |
| Game2048.Game.constructor | frontend/src/games/Game2048.js:46-48 | the mount effect: the start grid, score 0, playing |
| Game2048.Game.ResetGame | frontend/src/games/Game2048.js:40-44 | the start grid for the new draws, score 0, playing |
| Game2048.Game.HandleMove | frontend/src/games/Game2048.js:210-240 | game over, or a move that changes nothing, leaves the state; otherwise one tile is added to the moved grid, the score grows by the merged values, the game is over iff `canMove` rejects the new grid, and a 2048 while playing sets won and leaves moves possible |
| Chess.LetterCode | frontend/src/games/Chess.js:36-42 | the letter code is one-to-one, upper case for white and lower case for black |
| Chess.PlayerPieces | frontend/src/games/Chess.js:44-50 | a piece is the current player's iff it has their colour and the opponent's iff it has the other; never both |
| Chess.SidesDiffer | frontend/src/games/Chess.js:76 | the engine's opposite-side test holds exactly when the colours differ |
| Chess.PawnMoves | frontend/src/games/Chess.js:57-80 | one ahead onto an empty square; two ahead from the start row with both squares empty; one diagonally ahead onto an enemy; nothing else |
| Chess.OffsetMoves | frontend/src/games/Chess.js:103-115 | exactly the offset squares that are on the board and empty or held by an enemy |
| Chess.RayMoves | frontend/src/games/Chess.js:84-100 | every empty square up to the first occupied one, that square iff an enemy holds it, and nothing beyond |
| Chess.SlideMoves | frontend/src/games/Chess.js:82-101 | the union of the rays in the given directions |
| Chess.GetValidMoves | frontend/src/games/Chess.js:52-178 | exactly the targets of the piece's kind: pawn, rook, knight, bishop, queen or king |
| Chess.TargetsAreLandable | frontend/src/games/Chess.js:52-178 | no target is off the board, the start square, or held by the mover's colour |
| Chess.InitialBoard | frontend/src/games/Chess.js:4-13 | the start board is 8×8 |
| Chess.InitialBoardFacts | frontend/src/games/Chess.js:4-13 | pawns on rows 6 (white) and 1 (black), rows 2-5 empty, black on rows 0-1 and white below |
| Chess.MakeMove | frontend/src/games/Chess.js:198-202 | the target gets the moving piece, the source is empty, and every other square is unchanged |
| Chess.MakeMoveCount | frontend/src/games/Chess.js:198-202 | a move keeps every piece except the one on the target |
| Chess.MoveConserves | frontend/src/games/Chess.js:198-211 | filing the taken piece under its colour keeps every piece on the board or in a captured list |
| Chess.MoveKeepsState | frontend/src/games/Chess.js:196-221 | a move keeps the invariant: no selection, the other side to move, one more history entry, pieces conserved |
| Chess.Game.constructor | frontend/src/games/Chess.js:26-30 | the initial board, white to move, no selection, empty history and captured lists |
| Chess.Game.ResetGame | frontend/src/games/Chess.js:235-241 | the same initial state |
| Chess.Game.PlayMove | frontend/src/games/Chess.js:196-221 | the move is made, a taken piece is appended to its colour's list, the history grows by the move, the turn passes and the selection is cleared |
| Chess.Game.HandleSquareClick | frontend/src/games/Chess.js:180-233 | a generated target of the selected piece plays the move; otherwise the board is untouched and the selected square deselects, a piece of the side to move becomes the selection, and any other click clears it |
| Checkers.DirectionsAllowed | frontend/src/games/Checkers.js:47-51 | a red man moves up, a black man down, and a king in all four diagonals |
| Checkers.StepInExact | frontend/src/games/Checkers.js:57-63 | a step in an allowed direction is found iff it is legal in that direction |
| Checkers.JumpInExact | frontend/src/games/Checkers.js:64-77 | a jump in an allowed direction is found iff it is legal, and it names the jumped square |
| Checkers.StepsUpToExact | frontend/src/games/Checkers.js:53-63 | the steps of the first n directions are those of one of them |
| Checkers.JumpsUpToExact | frontend/src/games/Checkers.js:53-79 | the jumps of the first n directions are those of one of them |
| Checkers.StepsExact | frontend/src/games/Checkers.js:47-63 | the generated plain moves are exactly the legal steps |
| Checkers.JumpsExact | frontend/src/games/Checkers.js:47-79 | the generated captures are exactly the legal jumps: an opposing piece next to it and an empty on-board square beyond |
| Checkers.GetValidMoves | frontend/src/games/Checkers.js:41-82 | with `checkCaptures` set, `moves` is empty; without it, the steps; `captures` is the jumps either way; an empty square gives nothing |
| Checkers.TryDirection | frontend/src/games/Checkers.js:54-78 | one pass of the direction loop records that direction's step (unless checking captures) and jump |
| Checkers.FindMove | frontend/src/games/Checkers.js:200 | the first move in the list landing on the square, or none iff no move lands there |
| Checkers.FillRows | frontend/src/games/Checkers.js:11-26 | one set-up loop puts men of one colour on the dark squares of its rows and leaves the rest |
| Checkers.NewBoard | frontend/src/games/Checkers.js:7-29 | the set-up loops build the starting board |
| Checkers.StartBoardFacts | frontend/src/games/Checkers.js:7-29 | twelve black men on rows 0-2 and twelve red men on rows 5-7, none crowned, all on dark squares |
| Checkers.MakeMove | frontend/src/games/Checkers.js:102-125 | the piece leaves its square for the destination keeping its colour, a jumped square is emptied, a man is crowned on the far row and a king stays a king; nothing else changes |
| Checkers.CopyAndMove | frontend/src/games/Checkers.js:103-125 | the copying code makes that move and returns the jumped piece |
| Checkers.LegalShape | frontend/src/games/Checkers.js:64-77 | a legal move lands on an empty on-board square, and a jumped square holds an opposing piece |
| Checkers.MoveStaysDark | frontend/src/games/Checkers.js:107-108 | diagonal moves keep every piece on a dark square |
| Checkers.MakeMoveCount | frontend/src/games/Checkers.js:102-118 | a move keeps every piece except the jumped one |
| Checkers.EntryAtExact | frontend/src/games/Checkers.js:89-95 | a square has an entry iff its piece is of the colour and can jump, with its captures |
| Checkers.RowEntriesExact | frontend/src/games/Checkers.js:88-96 | a row's entries are exactly its pieces of the colour that can jump |
| Checkers.BoardEntriesExact | frontend/src/games/Checkers.js:87-97 | the first n rows' entries are exactly their pieces of the colour that can jump |
| Checkers.AllCapturesExact | frontend/src/games/Checkers.js:84-100 | `getAllCaptures` lists exactly the pieces of the colour that can jump, and is non-empty iff one can |
| Checkers.ScanSquare | frontend/src/games/Checkers.js:89-95 | one square of the scan gives its entry |
| Checkers.ScanRow | frontend/src/games/Checkers.js:88-96 | one row of the scan gives its entries left to right |
| Checkers.GetAllCaptures | frontend/src/games/Checkers.js:84-100 | the row-by-row scan gives the board's entries |
| Checkers.MovableInAllRows | frontend/src/games/Checkers.js:152-171 | scanning every row finds a movable piece iff the side can move |
| Checkers.VerdictByMovement | frontend/src/games/Checkers.js:173-177 | black wins iff red cannot move; otherwise red wins iff black cannot move; otherwise the status is kept |
| Checkers.TallySquare | frontend/src/games/Checkers.js:154-169 | one square of `checkGameEnd`'s scan: whose piece it holds and whether it can step or jump |
| Checkers.TallyRow | frontend/src/games/Checkers.js:153-170 | one row of the scan: each side's pieces and whether one can move |
| Checkers.CheckGameEnd | frontend/src/games/Checkers.js:146-178 | the scan decides the status by the counts and the movement test |
| Checkers.StartNoJumps | frontend/src/games/Checkers.js:64-77 | no piece can jump in the starting position |
| Checkers.StartCanMove | frontend/src/games/Checkers.js:146-178 | both sides can move at the start, so `checkGameEnd` keeps the game going |
| Checkers.StartInv | frontend/src/games/Checkers.js:230-257 | the starting state satisfies the invariant |
| Checkers.PlayedTurn | frontend/src/games/Checkers.js:129-143 | a capture whose landed piece can jump again keeps the selection on it, sets `mustCapture` and keeps the turn; otherwise the selection clears, the turn passes and `checkGameEnd` decides |
| Checkers.Moved | frontend/src/games/Checkers.js:103-118 | after the board work the destination holds the mover's colour |
| Checkers.PlayedKeepsInv | frontend/src/games/Checkers.js:102-144 | a move keeps the invariant; a capture adds exactly one to the opponent's captured count and none to the mover's |
| Checkers.PlayedBoard | frontend/src/games/Checkers.js:127 | the stored board is `makeMove`'s, whether or not the turn continues |
| Checkers.ClickKeepsInv | frontend/src/games/Checkers.js:180-228 | a click keeps the invariant |
| Checkers.ClickOnlyCaptures | frontend/src/games/Checkers.js:198-215 | a click changes the board only by a capture of the selected piece onto the clicked square, and the opponent then has one piece fewer |
| Checkers.ClickGuards | frontend/src/games/Checkers.js:181-223 | a finished game ignores clicks; clicking the selection deselects and clears `mustCapture`; a pending multi-jump is continued by a capture or abandoned, never handed to another piece |
| Checkers.StartFrozen | frontend/src/games/Checkers.js:198-206 | no click changes the starting board |
| Checkers.Game.constructor | frontend/src/games/Checkers.js:7-35 | the initial state: the starting board, red to move, playing, nothing captured |
| Checkers.Game.ResetGame | frontend/src/games/Checkers.js:230-257 | the same initial state |
| Checkers.Game.PlayMove | frontend/src/games/Checkers.js:102-144 | `makeMove` with its follow-up on the selected piece, keeping the invariant |
| Checkers.Game.MoveOnBoard | frontend/src/games/Checkers.js:103-127 | the board work and the captured tally of `makeMove` |
| Checkers.Game.ContinueOrPass | frontend/src/games/Checkers.js:129-143 | the follow-up: continue the multi-jump or end the turn |
| Checkers.Game.HandleSquareClick | frontend/src/games/Checkers.js:180-228 | the click's effect on the whole state, keeping the invariant |
| Checkers.Game.ClickWithSelection | frontend/src/games/Checkers.js:187-223 | the click with a selection has the same effect whatever `hasCaptures` is |

## Left out

- `FlappyBird.js`, the home page, the navigation bar and the app shell are not part of this
  model. Flappy Bird's physics are floating point driven by a timer, and the rest is layout.
- Rendering is not modelled: square and cell class names, piece and disk rendering, tile colours,
  time formatting, and the Tower of Hanoi performance rating.
- Timers are left out: elapsed time, `isActive` and `timerActive` are not fields. Snake's tick,
  the Memory flip-back and every other delay run as an explicit method call.
- Key and mouse listeners and `preventDefault` are left out. A key press or click comes in as a
  method argument.
- React's effect scheduling and batched state updates are folded into one atomic step per handler.
  So is the stale read of `gameStatus` inside `combineArray`.
- Grids and boards are values. The original's shallow copies share row objects with the old
  state. In `toggleFlag` the old grid is mutated in place. That aliasing is not modelled.
- `Math.random` is replaced by parameters. The model does not capture the distribution. It also
  does not capture the termination of the rejection loops in mine placement and food placement;
  their preconditions ask the draw stream to hold enough distinct cells instead.
- Chess pieces are a datatype rather than letter codes; `Chess.LetterCode` relates the two.
- `Array.some` and `Array.find` on move lists become membership tests and `Checkers.FindMove`.
- Minesweeper's visited set of row-comma-column strings is a set of positions.
- Minesweeper.Game.RevealCell and Minesweeper.Game.ToggleFlag: require an on-board cell. The
  handlers are only reached from the rendered cells.
- TowerOfHanoi.Game.MoveDisk: requires a game in progress. Its only caller, the click handler,
  returns early once the game is won.
- Checkers.Game.ClickWithSelection: the guard that rejects a plain move while a capture exists
  is modelled, but as written it never fires. Every move the click handler finds is a capture.
- Snake's `startGame` is folded into `KeyPress(Space)`, its only caller.
