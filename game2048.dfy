/** 2048 on a 4x4 grid: the four moves built from the line operations, the test for a
    possible move, the random tile, and the game's state. */
module Game2048 {
  import opened Line2048

  /** Rows of cells; 0 is an empty cell. */
  type Grid = seq<seq<nat>>

  datatype Status = Playing | Won | GameOver

  datatype Direction = Left | Right | Up | Down

  /** What a move computes: the new grid, the points scored, whether any line changed, and
      whether a merge made 2048. */
  datatype MoveResult = MoveResult(grid: Grid, score: nat, moved: bool, reached2048: bool)

  predicate IsGrid(g: Grid)
  {
    |g| == GridSize && forall i :: 0 <= i < GridSize ==> |g[i]| == GridSize
  }

  /** Every cell holds 0 or a power of two from 2 up. */
  predicate TileGrid(g: Grid)
  {
    IsGrid(g) && forall i :: 0 <= i < GridSize ==> AllTiles(g[i])
  }

  /** The grid of `Array(GRID_SIZE).fill().map(() => Array(GRID_SIZE).fill(0))`. */
  function EmptyGrid(): (r: Grid)
    ensures IsGrid(r) && forall a, b :: 0 <= a < GridSize && 0 <= b < GridSize ==> r[a][b] == 0
  {
    seq(GridSize, _ => Zeros(GridSize))
  }

  /** `[...arr].reverse()` */
  function Reverse(s: seq<nat>): (r: seq<nat>)
    ensures |r| == |s| && forall k :: 0 <= k < |s| ==> r[k] == s[|s| - 1 - k]
  {
    seq(|s|, k requires 0 <= k < |s| => s[|s| - 1 - k])
  }

  lemma ReverseReverse(s: seq<nat>)
    ensures Reverse(Reverse(s)) == s
  {
  }

  /** Reversing one side of an equation of lines reverses the other. */
  lemma ReverseEquals(a: seq<nat>, b: seq<nat>)
    ensures Reverse(a) == b <==> a == Reverse(b)
  {
    ReverseReverse(a);
    ReverseReverse(b);
  }

  /** Column j, read top to bottom. */
  function Column(g: Grid, j: nat): (r: seq<nat>)
    requires IsGrid(g) && j < GridSize
    ensures |r| == GridSize && forall i :: 0 <= i < GridSize ==> r[i] == g[i][j]
  {
    seq(GridSize, i requires 0 <= i < GridSize => g[i][j])
  }

  /** Line k of the grid read in the direction the tiles travel towards its start:
      a row for left, a reversed row for right, a column for up, a reversed column for down. */
  function LineOf(g: Grid, d: Direction, k: nat): (r: seq<nat>)
    requires IsGrid(g) && k < GridSize
    ensures |r| == GridSize
  {
    match d
    case Left => g[k]
    case Right => Reverse(g[k])
    case Up => Column(g, k)
    case Down => Reverse(Column(g, k))
  }

  /** Lines 0 .. n-1 of a move, each through slide, combine, slide. */
  function ProcessedUpTo(g: Grid, d: Direction, n: nat): (r: seq<Combined>)
    requires IsGrid(g) && n <= GridSize
    ensures |r| == n && forall k :: 0 <= k < n ==> |r[k].line| == GridSize
  {
    if n == 0 then [] else ProcessedUpTo(g, d, n - 1) + [ProcessLine(LineOf(g, d, n - 1))]
  }

  function Processed(g: Grid, d: Direction): (r: seq<Combined>)
    requires IsGrid(g)
    ensures |r| == GridSize && forall k :: 0 <= k < GridSize ==> |r[k].line| == GridSize
  {
    ProcessedUpTo(g, d, |g|)
  }

  /** Line k of a move is line k of the grid, processed. */
  lemma {:induction false} ProcessedAt(g: Grid, d: Direction, n: nat, k: nat)
    requires IsGrid(g) && k < n <= GridSize
    ensures ProcessedUpTo(g, d, n)[k] == ProcessLine(LineOf(g, d, k))
  {
    var prev := ProcessedUpTo(g, d, n - 1);
    var last := ProcessLine(LineOf(g, d, n - 1));
    assert ProcessedUpTo(g, d, n) == prev + [last];
    if k < n - 1 {
      ProcessedAt(g, d, n - 1, k);
      assert (prev + [last])[k] == prev[k];
    }
  }

  /** The points of a list of processed lines. */
  function TotalScore(cs: seq<Combined>): nat
  {
    if cs == [] then 0 else TotalScore(cs[..|cs| - 1]) + cs[|cs| - 1].score
  }

  /** Builds the grid from four processed lines, each written back where it was read. */
  function Placed(d: Direction, lines: seq<seq<nat>>): (r: Grid)
    requires |lines| == GridSize && forall k :: 0 <= k < GridSize ==> |lines[k]| == GridSize
    ensures IsGrid(r)
  {
    match d
    case Left => lines
    case Right => seq(GridSize, i requires 0 <= i < GridSize => Reverse(lines[i]))
    case Up => seq(GridSize, i requires 0 <= i < GridSize =>
                 seq(GridSize, j requires 0 <= j < GridSize => lines[j][i]))
    case Down => seq(GridSize, i requires 0 <= i < GridSize =>
                   seq(GridSize, j requires 0 <= j < GridSize => lines[j][GridSize - 1 - i]))
  }

  function Lines(cs: seq<Combined>): (r: seq<seq<nat>>)
    requires |cs| == GridSize && forall k :: 0 <= k < GridSize ==> |cs[k].line| == GridSize
    ensures |r| == GridSize && forall k :: 0 <= k < GridSize ==> r[k] == cs[k].line
  {
    seq(GridSize, k requires 0 <= k < GridSize => cs[k].line)
  }

  /** Some line of cs differs from the line of g it came from. */
  predicate AnyMoved(g: Grid, d: Direction, cs: seq<Combined>)
    requires IsGrid(g) && |cs| <= GridSize
  {
    |cs| > 0 && (AnyMoved(g, d, cs[..|cs| - 1]) || cs[|cs| - 1].line != LineOf(g, d, |cs| - 1))
  }

  /** Some line of cs made 2048. */
  predicate AnyReached(cs: seq<Combined>)
  {
    cs != [] && (AnyReached(cs[..|cs| - 1]) || cs[|cs| - 1].reached2048)
  }

  /** What `moveLeft`, `moveRight`, `moveUp` and `moveDown` compute. */
  function Move(g: Grid, d: Direction): (r: MoveResult)
    requires IsGrid(g)
    ensures IsGrid(r.grid)
  {
    var cs := Processed(g, d);
    MoveResult(Placed(d, Lines(cs)), TotalScore(cs), AnyMoved(g, d, cs), AnyReached(cs))
  }

  /* ---------------------------------------------------------------------------------- */
  /* The loops of the four moves                                                          */

  /** Each line of acc is the processed line of g in direction d. */
  ghost predicate LinesProcessed(g: Grid, d: Direction, acc: seq<Combined>)
    requires IsGrid(g)
  {
    |acc| <= GridSize && forall k :: 0 <= k < |acc| ==> acc[k] == ProcessLine(LineOf(g, d, k))
  }

  /** The running totals of a move's loop over the lines in acc. */
  ghost predicate Tally(g: Grid, d: Direction, acc: seq<Combined>, totalScore: nat, moved: bool, reached: bool)
    requires IsGrid(g) && |acc| <= GridSize
  {
    totalScore == TotalScore(acc) && moved == AnyMoved(g, d, acc) && reached == AnyReached(acc)
  }

  /** The state of a move's loop after the lines in acc: each is the processed line of g,
      and the running totals are theirs. */
  ghost predicate Looped(g: Grid, d: Direction, acc: seq<Combined>, totalScore: nat, moved: bool, reached: bool)
    requires IsGrid(g)
  {
    LinesProcessed(g, d, acc) && Tally(g, d, acc, totalScore, moved, reached)
  }

  /** One more processed line keeps the loop's state. */
  lemma LoopedStep(g: Grid, d: Direction, acc: seq<Combined>, c: Combined, totalScore: nat, moved: bool, reached: bool)
    requires IsGrid(g) && |acc| < GridSize && Looped(g, d, acc, totalScore, moved, reached)
    requires c == ProcessLine(LineOf(g, d, |acc|))
    ensures Looped(g, d, acc + [c], totalScore + c.score, moved || c.line != LineOf(g, d, |acc|), reached || c.reached2048)
  {
    LinesProcessedStep(g, d, acc, c);
    TallyStep(g, d, acc, c, totalScore, moved, reached);
  }

  lemma LinesProcessedStep(g: Grid, d: Direction, acc: seq<Combined>, c: Combined)
    requires IsGrid(g) && |acc| < GridSize && LinesProcessed(g, d, acc)
    requires c == ProcessLine(LineOf(g, d, |acc|))
    ensures LinesProcessed(g, d, acc + [c])
  {
    var next := acc + [c];
    forall k | 0 <= k < |next|
      ensures next[k] == ProcessLine(LineOf(g, d, k))
    {
      if k < |acc| {
        assert next[k] == acc[k];
      }
    }
  }

  lemma TallyStep(g: Grid, d: Direction, acc: seq<Combined>, c: Combined, totalScore: nat, moved: bool, reached: bool)
    requires IsGrid(g) && |acc| < GridSize && Tally(g, d, acc, totalScore, moved, reached)
    ensures Tally(g, d, acc + [c], totalScore + c.score, moved || c.line != LineOf(g, d, |acc|), reached || c.reached2048)
  {
    assert (acc + [c])[..|acc|] == acc;
  }

  /** Four lines, each the processed line of the grid, are `Processed`. */
  lemma AllProcessed(g: Grid, d: Direction, acc: seq<Combined>)
    requires IsGrid(g) && |acc| == GridSize && LinesProcessed(g, d, acc)
    ensures acc == Processed(g, d)
  {
    forall k | 0 <= k < GridSize
      ensures acc[k] == Processed(g, d)[k]
    {
      ProcessedAt(g, d, |g|, k);
    }
  }

  /** One line through `slideArray`, `combineArray` on an array, `slideArray`. */
  method ProcessRow(row: seq<nat>) returns (line: seq<nat>, newScore: nat, reached: bool)
    requires |row| == GridSize
    ensures Combined(line, newScore, reached) == ProcessLine(row)
  {
    var slid := SlideArray(row);
    var arr := new nat[GridSize](k requires 0 <= k < GridSize => slid[k]);
    assert arr[..] == slid;
    newScore, reached := CombineArray(arr);
    line := SlideArray(arr[..]);
  }

  /** Row k of newGrid is line k of acc, reversed back when `reversed`, for every k < |acc|. */
  ghost predicate RowsBuilt(newGrid: Grid, acc: seq<Combined>, reversed: bool)
  {
    |newGrid| == |acc| &&
    forall k :: 0 <= k < |acc| ==> newGrid[k] == if reversed then Reverse(acc[k].line) else acc[k].line
  }

  /** One more row keeps `RowsBuilt`. */
  lemma RowsBuiltStep(newGrid: Grid, acc: seq<Combined>, reversed: bool, arr: seq<nat>, c: Combined)
    requires RowsBuilt(newGrid, acc, reversed)
    requires arr == if reversed then Reverse(c.line) else c.line
    ensures RowsBuilt(newGrid + [arr], acc + [c], reversed)
  {
  }

  /** One row of `moveLeft` (of `moveRight` when `reversed`): reversed if need be, processed,
      reversed back, compared with the row, appended to the new grid. */
  method RowStep(grid: Grid, reversed: bool, i: nat, ghost acc: seq<Combined>, newGrid: Grid, totalScore: nat, moved: bool, reached: bool)
    returns (ghost acc': seq<Combined>, newGrid': Grid, totalScore': nat, moved': bool, reached': bool)
    requires IsGrid(grid) && i < GridSize && |acc| == i
    requires Looped(grid, if reversed then Right else Left, acc, totalScore, moved, reached)
    requires RowsBuilt(newGrid, acc, reversed)
    ensures |acc'| == i + 1 && Looped(grid, if reversed then Right else Left, acc', totalScore', moved', reached')
    ensures RowsBuilt(newGrid', acc', reversed)
    ensures var c := ProcessLine(LineOf(grid, if reversed then Right else Left, i));
            && newGrid' == newGrid + [if reversed then Reverse(c.line) else c.line]
            && totalScore' == totalScore + c.score
            && reached' == (reached || c.reached2048)
            && moved' == (moved || newGrid'[i] != grid[i])
  {
    var arr, newScore, r2048 := ProcessRow(if reversed then Reverse(grid[i]) else grid[i]);
    ghost var c := Combined(arr, newScore, r2048);
    if reversed {
      arr := Reverse(arr);
      ReverseEquals(c.line, grid[i]);
    }
    moved' := moved;
    if arr != grid[i] {
      moved' := true;
    }
    newGrid' := newGrid + [arr];
    totalScore' := totalScore + newScore;
    reached' := reached || r2048;
    LoopedStep(grid, if reversed then Right else Left, acc, c, totalScore, moved, reached);
    RowsBuiltStep(newGrid, acc, reversed, arr, c);
    acc' := acc + [c];
  }

  /** The rows `moveLeft` and `moveRight` build are the grid `Placed` builds. */
  lemma RowsPlaced(newGrid: Grid, cs: seq<Combined>, reversed: bool)
    requires |cs| == GridSize && forall k :: 0 <= k < GridSize ==> |cs[k].line| == GridSize
    requires RowsBuilt(newGrid, cs, reversed)
    ensures newGrid == Placed(if reversed then Right else Left, Lines(cs))
  {
  }

  /** `moveLeft` (and `moveRight` when `reversed`): each row processed into a new grid. */
  method MoveRows(grid: Grid, reversed: bool) returns (r: MoveResult)
    requires IsGrid(grid)
    ensures r == Move(grid, if reversed then Right else Left)
  {
    ghost var acc: seq<Combined> := [];
    var newGrid: Grid := [];
    var totalScore := 0;
    var moved, reached := false, false;
    for i := 0 to GridSize
      invariant |acc| == i && Looped(grid, if reversed then Right else Left, acc, totalScore, moved, reached)
      invariant RowsBuilt(newGrid, acc, reversed)
    {
      acc, newGrid, totalScore, moved, reached := RowStep(grid, reversed, i, acc, newGrid, totalScore, moved, reached);
    }
    RowsPlaced(newGrid, acc, reversed);
    AllProcessed(grid, if reversed then Right else Left, acc);
    r := MoveResult(newGrid, totalScore, moved, reached);
  }

  /** `moveLeft` */
  method MoveLeft(grid: Grid) returns (r: MoveResult)
    requires IsGrid(grid)
    ensures r == Move(grid, Left)
  {
    r := MoveRows(grid, false);
  }

  /** `moveRight` */
  method MoveRight(grid: Grid) returns (r: MoveResult)
    requires IsGrid(grid)
    ensures r == Move(grid, Right)
  {
    r := MoveRows(grid, true);
  }

  /** Column j read top to bottom, or bottom to top when `fromBottom`. */
  method ReadColumn(g: Grid, j: nat, fromBottom: bool) returns (arr: seq<nat>)
    requires IsGrid(g) && j < GridSize
    ensures arr == LineOf(g, if fromBottom then Down else Up, j)
  {
    arr := [];
    for i := 0 to GridSize
      invariant |arr| == i
      invariant forall k :: 0 <= k < i ==> arr[k] == g[if fromBottom then GridSize - 1 - k else k][j]
    {
      arr := arr + [g[if fromBottom then GridSize - 1 - i else i][j]];
    }
  }

  /** Writes `line` into column j of g from the top (or from the bottom when `fromBottom`). */
  method WriteColumn(g: Grid, j: nat, line: seq<nat>, fromBottom: bool) returns (r: Grid)
    requires IsGrid(g) && j < GridSize && |line| == GridSize
    ensures IsGrid(r)
    ensures forall a, b :: 0 <= a < GridSize && 0 <= b < GridSize ==>
              r[a][b] == if b == j then line[if fromBottom then GridSize - 1 - a else a] else g[a][b]
  {
    r := g;
    for i := 0 to GridSize
      invariant IsGrid(r)
      invariant forall a, b :: 0 <= a < GridSize && 0 <= b < GridSize ==>
                  r[a][b] == if b == j && (if fromBottom then GridSize - 1 - a < i else a < i)
                             then line[if fromBottom then GridSize - 1 - a else a] else g[a][b]
    {
      var row := if fromBottom then GridSize - 1 - i else i;
      r := r[row := r[row][j := line[i]]];
    }
  }

  /** Column b of newGrid holds line `cs[b]` (from the bottom when `fromBottom`) for every
      b < n, and the columns from n on are still empty. */
  ghost predicate ColumnsWritten(newGrid: Grid, cs: seq<Combined>, n: nat, fromBottom: bool)
  {
    IsGrid(newGrid) && n <= |cs| && (forall k :: 0 <= k < n ==> |cs[k].line| == GridSize) &&
    forall a, b {:trigger newGrid[a][b]} :: 0 <= a < GridSize && 0 <= b < GridSize ==>
      newGrid[a][b] == if b < n then cs[b].line[if fromBottom then GridSize - 1 - a else a] else 0
  }

  /** Writing one more line into column n keeps `ColumnsWritten`. */
  lemma ColumnsWrittenStep(newGrid: Grid, acc: seq<Combined>, n: nat, fromBottom: bool, c: Combined, next: Grid)
    requires ColumnsWritten(newGrid, acc, n, fromBottom) && n == |acc| < GridSize && |c.line| == GridSize
    requires IsGrid(next)
    requires forall a, b :: 0 <= a < GridSize && 0 <= b < GridSize ==>
               next[a][b] == if b == n then c.line[if fromBottom then GridSize - 1 - a else a] else newGrid[a][b]
    ensures ColumnsWritten(next, acc + [c], n + 1, fromBottom)
  {
    var cs := acc + [c];
    forall a, b | 0 <= a < GridSize && 0 <= b < GridSize
      ensures next[a][b] == if b < n + 1 then cs[b].line[if fromBottom then GridSize - 1 - a else a] else 0
    {
      if b < n {
        assert cs[b] == acc[b];
      } else if b == n {
        assert cs[b] == c;
      }
    }
  }

  /** One column of `moveUp` or `moveDown`: read, processed, compared with the column, and
      written into column j of the new grid. */
  method ColumnStep(grid: Grid, fromBottom: bool, j: nat, ghost acc: seq<Combined>, newGrid: Grid, totalScore: nat, moved: bool, reached: bool)
    returns (ghost acc': seq<Combined>, newGrid': Grid, totalScore': nat, moved': bool, reached': bool)
    requires IsGrid(grid) && j < GridSize && |acc| == j
    requires Looped(grid, if fromBottom then Down else Up, acc, totalScore, moved, reached)
    requires ColumnsWritten(newGrid, acc, j, fromBottom)
    ensures |acc'| == j + 1
    ensures Looped(grid, if fromBottom then Down else Up, acc', totalScore', moved', reached')
    ensures ColumnsWritten(newGrid', acc', j + 1, fromBottom)
    ensures var line := LineOf(grid, if fromBottom then Down else Up, j);
            var c := ProcessLine(line);
            && totalScore' == totalScore + c.score
            && reached' == (reached || c.reached2048)
            && moved' == (moved || c.line != line)
    ensures IsGrid(newGrid')
    ensures forall a, b :: 0 <= a < GridSize && 0 <= b < GridSize ==>
              newGrid'[a][b] == if b == j then ProcessLine(LineOf(grid, if fromBottom then Down else Up, j)).line[if fromBottom then GridSize - 1 - a else a]
                                else newGrid[a][b]
  {
    var d := if fromBottom then Down else Up;
    var arr := ReadColumn(grid, j, fromBottom);
    var newScore, r2048;
    arr, newScore, r2048 := ProcessRow(arr);
    var originalColumn := ReadColumn(grid, j, fromBottom);
    moved' := moved;
    if arr != originalColumn {
      moved' := true;
    }
    newGrid' := WriteColumn(newGrid, j, arr, fromBottom);
    totalScore' := totalScore + newScore;
    reached' := reached || r2048;
    LoopedStep(grid, d, acc, Combined(arr, newScore, r2048), totalScore, moved, reached);
    ColumnsWrittenStep(newGrid, acc, j, fromBottom, Combined(arr, newScore, r2048), newGrid');
    acc' := acc + [Combined(arr, newScore, r2048)];
  }

  /** Cell (a, b) of a grid built from four lines. */
  lemma PlacedCells(d: Direction, lines: seq<seq<nat>>)
    requires |lines| == GridSize && forall k :: 0 <= k < GridSize ==> |lines[k]| == GridSize
    ensures forall a, b :: 0 <= a < GridSize && 0 <= b < GridSize ==>
              Placed(d, lines)[a][b] == match d
                                        case Left => lines[a][b]
                                        case Right => lines[a][GridSize - 1 - b]
                                        case Up => lines[b][a]
                                        case Down => lines[b][GridSize - 1 - a]
  {
  }

  /** Two grids with the same cells are the same grid. */
  lemma SameCells(g: Grid, h: Grid)
    requires IsGrid(g) && IsGrid(h)
    requires forall a, b :: 0 <= a < GridSize && 0 <= b < GridSize ==> g[a][b] == h[a][b]
    ensures g == h
  {
    forall a | 0 <= a < GridSize
      ensures g[a] == h[a]
    {
      assert forall b :: 0 <= b < GridSize ==> g[a][b] == h[a][b];
    }
  }

  /** The columns `moveUp` and `moveDown` write are the grid `Placed` builds. */
  lemma ColumnsPlaced(newGrid: Grid, cs: seq<Combined>, fromBottom: bool)
    requires |cs| == GridSize && ColumnsWritten(newGrid, cs, GridSize, fromBottom)
    ensures newGrid == Placed(if fromBottom then Down else Up, Lines(cs))
  {
    PlacedCells(if fromBottom then Down else Up, Lines(cs));
    SameCells(newGrid, Placed(if fromBottom then Down else Up, Lines(cs)));
  }

  /** `moveUp` (and `moveDown` when `fromBottom`): each column read, processed and written
      back cell by cell into a fresh empty grid. */
  method MoveColumns(grid: Grid, fromBottom: bool) returns (r: MoveResult)
    requires IsGrid(grid)
    ensures r == Move(grid, if fromBottom then Down else Up)
  {
    ghost var acc: seq<Combined> := [];
    var newGrid: Grid := EmptyGrid();
    var totalScore := 0;
    var moved, reached := false, false;
    for j := 0 to GridSize
      invariant |acc| == j && Looped(grid, if fromBottom then Down else Up, acc, totalScore, moved, reached)
      invariant ColumnsWritten(newGrid, acc, j, fromBottom)
    {
      acc, newGrid, totalScore, moved, reached := ColumnStep(grid, fromBottom, j, acc, newGrid, totalScore, moved, reached);
    }
    ColumnsPlaced(newGrid, acc, fromBottom);
    AllProcessed(grid, if fromBottom then Down else Up, acc);
    r := MoveResult(newGrid, totalScore, moved, reached);
  }

  /** `moveUp` */
  method MoveUp(grid: Grid) returns (r: MoveResult)
    requires IsGrid(grid)
    ensures r == Move(grid, Up)
  {
    r := MoveColumns(grid, false);
  }

  /** `moveDown` */
  method MoveDown(grid: Grid) returns (r: MoveResult)
    requires IsGrid(grid)
    ensures r == Move(grid, Down)
  {
    r := MoveColumns(grid, true);
  }

  /* ---------------------------------------------------------------------------------- */
  /* What a move does to the grid                                                         */

  /** The four lines of g read in direction d. */
  function LinesOf(g: Grid, d: Direction): (r: seq<seq<nat>>)
    requires IsGrid(g)
    ensures |r| == GridSize && forall k :: 0 <= k < GridSize ==> r[k] == LineOf(g, d, k)
  {
    seq(GridSize, k requires 0 <= k < GridSize => LineOf(g, d, k))
  }

  /** Writing back the lines just read gives the grid again. */
  lemma PlacedLinesOf(g: Grid, d: Direction)
    requires IsGrid(g)
    ensures Placed(d, LinesOf(g, d)) == g
  {
    var lines := LinesOf(g, d);
    PlacedCells(d, lines);
    forall a, b | 0 <= a < GridSize && 0 <= b < GridSize
      ensures Placed(d, lines)[a][b] == g[a][b]
    {
      match d
      case Left =>
      case Right => assert lines[a] == Reverse(g[a]);
      case Up => assert lines[b] == Column(g, b);
      case Down => assert lines[b] == Reverse(Column(g, b));
    }
    SameCells(Placed(d, lines), g);
  }

  /** Reading back the lines just written gives the lines again. */
  lemma LineOfPlaced(d: Direction, lines: seq<seq<nat>>, k: nat)
    requires |lines| == GridSize && forall k :: 0 <= k < GridSize ==> |lines[k]| == GridSize
    requires k < GridSize
    ensures LineOf(Placed(d, lines), d, k) == lines[k]
  {
    PlacedCells(d, lines);
    var line := LineOf(Placed(d, lines), d, k);
    forall i | 0 <= i < GridSize
      ensures line[i] == lines[k][i]
    {
      match d
      case Left =>
      case Right =>
      case Up =>
      case Down => assert line[i] == Column(Placed(d, lines), k)[GridSize - 1 - i];
    }
  }

  /** `AnyMoved` says that some line differs from the line it came from. */
  lemma {:induction false} AnyMovedIff(g: Grid, d: Direction, cs: seq<Combined>)
    requires IsGrid(g) && |cs| <= GridSize
    ensures AnyMoved(g, d, cs) <==> exists k :: 0 <= k < |cs| && cs[k].line != LineOf(g, d, k)
  {
    if |cs| > 0 {
      var n := |cs| - 1;
      var front := cs[..n];
      AnyMovedIff(g, d, front);
      if AnyMoved(g, d, front) {
        var k :| 0 <= k < |front| && front[k].line != LineOf(g, d, k);
        assert cs[k] == front[k];
      }
      if exists k :: 0 <= k < |cs| && cs[k].line != LineOf(g, d, k) {
        var k :| 0 <= k < |cs| && cs[k].line != LineOf(g, d, k);
        if k < n {
          assert front[k] == cs[k];
        }
      }
    }
  }

  /** Lines written back give the grid they were read from exactly when each equals the
      line read. */
  lemma PlacedUnchangedIff(g: Grid, d: Direction, cs: seq<Combined>)
    requires IsGrid(g) && |cs| == GridSize && forall k :: 0 <= k < GridSize ==> |cs[k].line| == GridSize
    ensures Placed(d, Lines(cs)) == g <==> forall k :: 0 <= k < GridSize ==> cs[k].line == LineOf(g, d, k)
  {
    if Placed(d, Lines(cs)) == g {
      forall k | 0 <= k < GridSize
        ensures cs[k].line == LineOf(g, d, k)
      {
        LineOfPlaced(d, Lines(cs), k);
      }
    }
    if forall k :: 0 <= k < GridSize ==> cs[k].line == LineOf(g, d, k) {
      assert Lines(cs) == LinesOf(g, d);
      PlacedLinesOf(g, d);
    }
  }

  /** `moved` is true exactly when the move changes the grid. */
  lemma MovedIff(g: Grid, d: Direction)
    requires IsGrid(g)
    ensures Move(g, d).moved <==> Move(g, d).grid != g
  {
    var cs := Processed(g, d);
    AnyMovedIff(g, d, cs);
    PlacedUnchangedIff(g, d, cs);
  }

  /** A grid is a grid of tiles exactly when every cell holds a tile. */
  lemma TileGridCells(g: Grid)
    requires IsGrid(g)
    ensures TileGrid(g) <==> forall a, b :: 0 <= a < GridSize && 0 <= b < GridSize ==> IsTile(g[a][b])
  {
    if forall a, b :: 0 <= a < GridSize && 0 <= b < GridSize ==> IsTile(g[a][b]) {
      forall a | 0 <= a < GridSize
        ensures AllTiles(g[a])
      {
        assert forall b :: 0 <= b < GridSize ==> IsTile(g[a][b]);
      }
    }
  }

  /** Every line of a grid of tiles holds tiles. */
  lemma LineOfTiles(g: Grid, d: Direction, k: nat)
    requires TileGrid(g) && k < GridSize
    ensures AllTiles(LineOf(g, d, k))
  {
    TileGridCells(g);
  }

  /** A move turns a grid of tiles into a grid of tiles. */
  lemma MoveTiles(g: Grid, d: Direction)
    requires TileGrid(g)
    ensures TileGrid(Move(g, d).grid)
  {
    var cs := Processed(g, d);
    var lines := Lines(cs);
    forall k | 0 <= k < GridSize
      ensures AllTiles(lines[k])
    {
      ProcessedAt(g, d, |g|, k);
      LineOfTiles(g, d, k);
      ProcessLineTiles(LineOf(g, d, k));
    }
    PlacedCells(d, lines);
    TileGridCells(Move(g, d).grid);
  }

  /** Over lines processed from g, points or a 2048 come only with a changed line. */
  lemma {:induction false} ScoreNeedsChange(g: Grid, d: Direction, cs: seq<Combined>)
    requires IsGrid(g) && LinesProcessed(g, d, cs)
    ensures TotalScore(cs) > 0 || AnyReached(cs) ==> AnyMoved(g, d, cs)
  {
    if cs != [] {
      var n := |cs| - 1;
      ScoreNeedsChange(g, d, cs[..n]);
      ProcessLineUnchanged(LineOf(g, d, n));
    }
  }

  /** A move that scores, or that makes 2048, changes the grid. */
  lemma ScoreMeansMoved(g: Grid, d: Direction)
    requires IsGrid(g)
    ensures Move(g, d).score > 0 || Move(g, d).reached2048 ==> Move(g, d).moved
  {
    var cs := Processed(g, d);
    forall k | 0 <= k < GridSize
      ensures cs[k] == ProcessLine(LineOf(g, d, k))
    {
      ProcessedAt(g, d, |g|, k);
    }
    ScoreNeedsChange(g, d, cs);
  }

  /** Lines read alike process alike. */
  lemma {:induction false} SameLinesProcessed(g: Grid, d: Direction, h: Grid, e: Direction, n: nat)
    requires IsGrid(g) && IsGrid(h) && n <= GridSize
    requires forall k :: 0 <= k < GridSize ==> LineOf(g, d, k) == LineOf(h, e, k)
    ensures ProcessedUpTo(g, d, n) == ProcessedUpTo(h, e, n)
  {
    if n > 0 {
      SameLinesProcessed(g, d, h, e, n - 1);
    }
  }

  /** Lines read alike are moved alike. */
  lemma {:induction false} SameLinesMoved(g: Grid, d: Direction, h: Grid, e: Direction, cs: seq<Combined>)
    requires IsGrid(g) && IsGrid(h) && |cs| <= GridSize
    requires forall k :: 0 <= k < GridSize ==> LineOf(g, d, k) == LineOf(h, e, k)
    ensures AnyMoved(g, d, cs) == AnyMoved(h, e, cs)
  {
    if cs != [] {
      SameLinesMoved(g, d, h, e, cs[..|cs| - 1]);
    }
  }

  /** Each row reversed. */
  function Mirror(g: Grid): (r: Grid)
    requires IsGrid(g)
    ensures IsGrid(r) && forall a :: 0 <= a < GridSize ==> r[a] == Reverse(g[a])
  {
    seq(GridSize, a requires 0 <= a < GridSize => Reverse(g[a]))
  }

  /** The rows in reverse order. */
  function Flip(g: Grid): (r: Grid)
    requires IsGrid(g)
    ensures IsGrid(r) && forall a :: 0 <= a < GridSize ==> r[a] == g[GridSize - 1 - a]
  {
    seq(GridSize, a requires 0 <= a < GridSize => g[GridSize - 1 - a])
  }

  /** `moveRight` is `moveLeft` on the mirrored grid, mirrored back. */
  lemma RightIsMirroredLeft(g: Grid)
    requires IsGrid(g)
    ensures var m := Move(Mirror(g), Left);
            Move(g, Right) == MoveResult(Mirror(m.grid), m.score, m.moved, m.reached2048)
  {
    var h := Mirror(g);
    assert forall k :: 0 <= k < GridSize ==> LineOf(g, Right, k) == LineOf(h, Left, k);
    SameLinesProcessed(g, Right, h, Left, |g|);
    SameLinesMoved(g, Right, h, Left, Processed(g, Right));
  }

  /** Column k of the upside-down grid is column k read from the bottom. */
  lemma FlipColumns(g: Grid, k: nat)
    requires IsGrid(g) && k < GridSize
    ensures LineOf(g, Down, k) == LineOf(Flip(g), Up, k)
  {
    assert forall i :: 0 <= i < GridSize ==> LineOf(g, Down, k)[i] == LineOf(Flip(g), Up, k)[i];
  }

  /** Writing lines into columns from the bottom turns the grid they make from the top
      upside down. */
  lemma PlacedDownIsFlipped(lines: seq<seq<nat>>)
    requires |lines| == GridSize && forall k :: 0 <= k < GridSize ==> |lines[k]| == GridSize
    ensures Placed(Down, lines) == Flip(Placed(Up, lines))
  {
    PlacedCells(Down, lines);
    PlacedCells(Up, lines);
    SameCells(Placed(Down, lines), Flip(Placed(Up, lines)));
  }

  /** `moveDown` is `moveUp` on the upside-down grid, turned back. */
  lemma DownIsFlippedUp(g: Grid)
    requires IsGrid(g)
    ensures var m := Move(Flip(g), Up);
            Move(g, Down) == MoveResult(Flip(m.grid), m.score, m.moved, m.reached2048)
  {
    var h := Flip(g);
    forall k | 0 <= k < GridSize
      ensures LineOf(g, Down, k) == LineOf(h, Up, k)
    {
      FlipColumns(g, k);
    }
    SameLinesProcessed(g, Down, h, Up, |g|);
    SameLinesMoved(g, Down, h, Up, Processed(g, Down));
    PlacedDownIsFlipped(Lines(Processed(g, Down)));
  }

  /* ---------------------------------------------------------------------------------- */
  /* `canMove`                                                                           */

  /** Some cell is empty. */
  predicate HasEmpty(g: Grid)
    requires IsGrid(g)
  {
    exists a, b :: 0 <= a < GridSize && 0 <= b < GridSize && g[a][b] == 0
  }

  /** Cell (a, b) equals its neighbour below or its neighbour to the right. */
  predicate EqualNeighbour(g: Grid, a: nat, b: nat)
    requires IsGrid(g) && a < GridSize && b < GridSize
  {
    (a < GridSize - 1 && g[a + 1][b] == g[a][b]) || (b < GridSize - 1 && g[a][b + 1] == g[a][b])
  }

  /** Some cell equals its neighbour below or to its right. */
  predicate HasEqualNeighbours(g: Grid)
    requires IsGrid(g)
  {
    exists a: nat, b: nat :: a < GridSize && b < GridSize && EqualNeighbour(g, a, b)
  }

  /** What `canMove` tests: an empty cell, or two orthogonally adjacent equal cells. */
  predicate Movable(g: Grid)
    requires IsGrid(g)
  {
    HasEmpty(g) || HasEqualNeighbours(g)
  }

  /** `canMove`: a scan for an empty cell, then a scan for equal neighbours, each returning
      as soon as it finds one. */
  method CanMove(grid: Grid) returns (b: bool)
    requires IsGrid(grid)
    ensures b == Movable(grid)
  {
    for i := 0 to GridSize
      invariant forall a, c :: 0 <= a < i && 0 <= c < GridSize ==> grid[a][c] != 0
    {
      for j := 0 to GridSize
        invariant forall c :: 0 <= c < j ==> grid[i][c] != 0
      {
        if grid[i][j] == 0 {
          return true;
        }
      }
    }
    for i := 0 to GridSize
      invariant forall a: nat, c: nat :: a < i && c < GridSize ==> !EqualNeighbour(grid, a, c)
    {
      for j := 0 to GridSize
        invariant forall c: nat :: c < j ==> !EqualNeighbour(grid, i, c)
      {
        var current := grid[i][j];
        if (i < GridSize - 1 && grid[i + 1][j] == current) || (j < GridSize - 1 && grid[i][j + 1] == current) {
          assert EqualNeighbour(grid, i, j);
          return true;
        }
      }
    }
    return false;
  }

  /** Every line of a grid `canMove` rejects is full and has no equal neighbours. */
  lemma StuckLine(g: Grid, d: Direction, k: nat)
    requires IsGrid(g) && !Movable(g) && k < GridSize
    ensures ZeroFree(LineOf(g, d, k)) && NoAdjacentEqual(LineOf(g, d, k))
  {
    var line := LineOf(g, d, k);
    forall i | 0 <= i < GridSize
      ensures line[i] != 0
    {
      match d
      case Left => assert line[i] == g[k][i];
      case Right => assert line[i] == g[k][GridSize - 1 - i];
      case Up => assert line[i] == g[i][k];
      case Down => assert line[i] == g[GridSize - 1 - i][k];
    }
    forall i | 0 <= i < GridSize - 1
      ensures line[i] != line[i + 1]
    {
      match d
      case Left => assert !EqualNeighbour(g, k, i);
      case Right => assert !EqualNeighbour(g, k, GridSize - 2 - i);
      case Up => assert !EqualNeighbour(g, i, k);
      case Down => assert !EqualNeighbour(g, GridSize - 2 - i, k);
    }
  }

  /** Lines each left as they were, scoring nothing, add up to nothing. */
  lemma {:induction false} IdentityTally(g: Grid, d: Direction, cs: seq<Combined>)
    requires IsGrid(g) && |cs| <= GridSize
    requires forall k :: 0 <= k < |cs| ==> cs[k] == Combined(LineOf(g, d, k), 0, false)
    ensures TotalScore(cs) == 0 && !AnyMoved(g, d, cs) && !AnyReached(cs)
  {
    if cs != [] {
      IdentityTally(g, d, cs[..|cs| - 1]);
    }
  }

  /** On a grid `canMove` rejects, no direction changes the grid, scores or makes 2048. */
  lemma StuckGrid(g: Grid, d: Direction)
    requires IsGrid(g) && !Movable(g)
    ensures Move(g, d) == MoveResult(g, 0, false, false)
  {
    var cs := Processed(g, d);
    forall k | 0 <= k < GridSize
      ensures cs[k] == Combined(LineOf(g, d, k), 0, false)
    {
      ProcessedAt(g, d, |g|, k);
      StuckLine(g, d, k);
      ProcessLineIdentity(LineOf(g, d, k));
    }
    IdentityTally(g, d, cs);
    PlacedUnchangedIff(g, d, cs);
  }

  /* ---------------------------------------------------------------------------------- */
  /* `addRandomTile` and `initializeGrid`                                                */

  datatype Cell = Cell(row: nat, col: nat)

  /** The empty cells among the first j of row i, left to right. */
  function EmptyInRow(g: Grid, i: nat, j: nat): (r: seq<Cell>)
    requires IsGrid(g) && i < GridSize && j <= GridSize
    ensures forall k :: 0 <= k < |r| ==> r[k].row == i && r[k].col < j
  {
    if j == 0 then []
    else EmptyInRow(g, i, j - 1) + (if g[i][j - 1] == 0 then [Cell(i, j - 1)] else [])
  }

  /** The empty cells of the first i rows, row by row. */
  function EmptyInRows(g: Grid, i: nat): (r: seq<Cell>)
    requires IsGrid(g) && i <= GridSize
    ensures forall k :: 0 <= k < |r| ==> r[k].row < i && r[k].col < GridSize
  {
    if i == 0 then [] else EmptyInRows(g, i - 1) + EmptyInRow(g, i - 1, GridSize)
  }

  /** The `emptyCells` list `addRandomTile` collects. */
  function EmptyCells(g: Grid): seq<Cell>
    requires IsGrid(g)
  {
    EmptyInRows(g, GridSize)
  }

  /** A cell is listed for row i exactly when it is among the first j and empty. */
  lemma {:induction false} EmptyInRowMembers(g: Grid, i: nat, j: nat, c: Cell)
    requires IsGrid(g) && i < GridSize && j <= GridSize
    ensures c in EmptyInRow(g, i, j) <==> c.row == i && c.col < j && g[c.row][c.col] == 0
  {
    if j > 0 {
      EmptyInRowMembers(g, i, j - 1, c);
    }
  }

  /** A cell is listed exactly when it is in the first i rows and empty. */
  lemma {:induction false} EmptyInRowsMembers(g: Grid, i: nat, c: Cell)
    requires IsGrid(g) && i <= GridSize
    ensures c in EmptyInRows(g, i) <==> c.row < i && c.col < GridSize && g[c.row][c.col] == 0
  {
    if i > 0 {
      EmptyInRowsMembers(g, i - 1, c);
      EmptyInRowMembers(g, i - 1, GridSize, c);
    }
  }

  /** The list holds exactly the empty cells; it is empty exactly when no cell is. */
  lemma EmptyCellsFacts(g: Grid)
    requires IsGrid(g)
    ensures forall c :: c in EmptyCells(g) <==> c.row < GridSize && c.col < GridSize && g[c.row][c.col] == 0
    ensures EmptyCells(g) == [] <==> !HasEmpty(g)
  {
    forall c
      ensures c in EmptyCells(g) <==> c.row < GridSize && c.col < GridSize && g[c.row][c.col] == 0
    {
      EmptyInRowsMembers(g, GridSize, c);
    }
    if HasEmpty(g) {
      var a, b :| 0 <= a < GridSize && 0 <= b < GridSize && g[a][b] == 0;
      assert Cell(a, b) in EmptyCells(g);
    }
    if EmptyCells(g) != [] {
      var c := EmptyCells(g)[0];
      assert c in EmptyCells(g);
      assert g[c.row][c.col] == 0;
    }
  }

  /** `Math.floor(draw * n)` for a draw in [0, 1): an index below n. */
  function PickIndex(draw: real, n: nat): (k: nat)
    requires 0.0 <= draw < 1.0 && n > 0
    ensures k < n
  {
    assert 0.0 <= draw * n as real < n as real;
    (draw * n as real).Floor
  }

  /** `Math.random() < 0.9 ? 2 : 4` */
  function NewTileValue(draw: real): nat
  {
    if draw < 0.9 then 2 else 4
  }

  /** The empty cell `addRandomTile` picks with this draw. */
  function ChosenCell(g: Grid, cellDraw: real): (c: Cell)
    requires IsGrid(g) && EmptyCells(g) != [] && 0.0 <= cellDraw < 1.0
    ensures c.row < GridSize && c.col < GridSize
  {
    var cells := EmptyCells(g);
    cells[PickIndex(cellDraw, |cells|)]
  }

  /** What `addRandomTile` returns for the two draws of `Math.random()`. */
  function PlaceTile(g: Grid, cellDraw: real, valueDraw: real): (r: Grid)
    requires IsGrid(g) && 0.0 <= cellDraw < 1.0
    ensures IsGrid(r)
  {
    if EmptyCells(g) == [] then g
    else
      var c := ChosenCell(g, cellDraw);
      var row: seq<nat> := g[c.row][c.col := NewTileValue(valueDraw)];
      g[c.row := row]
  }

  /** `addRandomTile`: with no empty cell the grid stays as it is; otherwise exactly one
      cell that was empty now holds 2 or 4, and every other cell is as it was. */
  lemma PlaceTileFacts(g: Grid, cellDraw: real, valueDraw: real)
    requires IsGrid(g) && 0.0 <= cellDraw < 1.0
    ensures !HasEmpty(g) ==> PlaceTile(g, cellDraw, valueDraw) == g
    ensures HasEmpty(g) ==>
              EmptyCells(g) != [] &&
              var c := ChosenCell(g, cellDraw);
              var r := PlaceTile(g, cellDraw, valueDraw);
              g[c.row][c.col] == 0 && (r[c.row][c.col] == 2 || r[c.row][c.col] == 4) &&
              forall a, b :: 0 <= a < GridSize && 0 <= b < GridSize && (a != c.row || b != c.col) ==> r[a][b] == g[a][b]
  {
    EmptyCellsFacts(g);
    if HasEmpty(g) {
      var c := ChosenCell(g, cellDraw);
      assert c in EmptyCells(g);
    }
  }

  /** A new tile keeps a grid of tiles a grid of tiles. */
  lemma PlaceTileTiles(g: Grid, cellDraw: real, valueDraw: real)
    requires TileGrid(g) && 0.0 <= cellDraw < 1.0
    ensures TileGrid(PlaceTile(g, cellDraw, valueDraw))
  {
    var r := PlaceTile(g, cellDraw, valueDraw);
    PlaceTileFacts(g, cellDraw, valueDraw);
    assert IsTile(2) && IsTile(4);
    TileGridCells(g);
    TileGridCells(r);
  }

  /** `addRandomTile`: collect the empty cells row by row, then write one of them in a copy. */
  method AddRandomTile(currentGrid: Grid, cellDraw: real, valueDraw: real) returns (newGrid: Grid)
    requires IsGrid(currentGrid) && 0.0 <= cellDraw < 1.0
    ensures newGrid == PlaceTile(currentGrid, cellDraw, valueDraw)
  {
    var emptyCells: seq<Cell> := [];
    for i := 0 to GridSize
      invariant emptyCells == EmptyInRows(currentGrid, i)
    {
      for j := 0 to GridSize
        invariant emptyCells == EmptyInRows(currentGrid, i) + EmptyInRow(currentGrid, i, j)
      {
        if currentGrid[i][j] == 0 {
          emptyCells := emptyCells + [Cell(i, j)];
        }
      }
    }
    if |emptyCells| == 0 {
      return currentGrid;
    }
    var randomCell := emptyCells[PickIndex(cellDraw, |emptyCells|)];
    var row: seq<nat> := currentGrid[randomCell.row][randomCell.col := NewTileValue(valueDraw)];
    newGrid := currentGrid[randomCell.row := row];
  }

  /** What `initializeGrid` returns: two random tiles on an empty grid. */
  function InitialGrid(cellDraw1: real, valueDraw1: real, cellDraw2: real, valueDraw2: real): (r: Grid)
    requires 0.0 <= cellDraw1 < 1.0 && 0.0 <= cellDraw2 < 1.0
    ensures IsGrid(r)
  {
    PlaceTile(PlaceTile(EmptyGrid(), cellDraw1, valueDraw1), cellDraw2, valueDraw2)
  }

  /** `initializeGrid` */
  method InitializeGrid(cellDraw1: real, valueDraw1: real, cellDraw2: real, valueDraw2: real) returns (newGrid: Grid)
    requires 0.0 <= cellDraw1 < 1.0 && 0.0 <= cellDraw2 < 1.0
    ensures newGrid == InitialGrid(cellDraw1, valueDraw1, cellDraw2, valueDraw2)
  {
    newGrid := EmptyGrid();
    newGrid := AddRandomTile(newGrid, cellDraw1, valueDraw1);
    newGrid := AddRandomTile(newGrid, cellDraw2, valueDraw2);
  }

  /** Two tiles placed on a grid of empty cells: two different cells hold 2 or 4 and
      every other cell is empty. */
  lemma TwoTilesOnEmpty(g: Grid, cellDraw1: real, valueDraw1: real, cellDraw2: real, valueDraw2: real)
    requires IsGrid(g) && forall a, b :: 0 <= a < GridSize && 0 <= b < GridSize ==> g[a][b] == 0
    requires 0.0 <= cellDraw1 < 1.0 && 0.0 <= cellDraw2 < 1.0
    ensures var g1 := PlaceTile(g, cellDraw1, valueDraw1);
            var r := PlaceTile(g1, cellDraw2, valueDraw2);
            EmptyCells(g) != [] && EmptyCells(g1) != [] &&
            var c1 := ChosenCell(g, cellDraw1);
            var c2 := ChosenCell(g1, cellDraw2);
            c1 != c2 &&
            (r[c1.row][c1.col] == 2 || r[c1.row][c1.col] == 4) &&
            (r[c2.row][c2.col] == 2 || r[c2.row][c2.col] == 4) &&
            forall a, b :: 0 <= a < GridSize && 0 <= b < GridSize && Cell(a, b) != c1 && Cell(a, b) != c2 ==> r[a][b] == 0
  {
    var g1 := PlaceTile(g, cellDraw1, valueDraw1);
    assert g[0][0] == 0;
    PlaceTileFacts(g, cellDraw1, valueDraw1);
    var c1 := ChosenCell(g, cellDraw1);
    var spare := if c1 == Cell(0, 0) then Cell(0, 1) else Cell(0, 0);
    assert g1[spare.row][spare.col] == 0;
    PlaceTileFacts(g1, cellDraw2, valueDraw2);
  }

  /** The starting grid holds two tiles, each 2 or 4, in two different cells, and is empty
      everywhere else; so it is a grid of tiles that `canMove` accepts. */
  lemma InitialGridFacts(cellDraw1: real, valueDraw1: real, cellDraw2: real, valueDraw2: real)
    requires 0.0 <= cellDraw1 < 1.0 && 0.0 <= cellDraw2 < 1.0
    ensures var g1 := PlaceTile(EmptyGrid(), cellDraw1, valueDraw1);
            var r := InitialGrid(cellDraw1, valueDraw1, cellDraw2, valueDraw2);
            EmptyCells(EmptyGrid()) != [] && EmptyCells(g1) != [] &&
            var c1 := ChosenCell(EmptyGrid(), cellDraw1);
            var c2 := ChosenCell(g1, cellDraw2);
            c1 != c2 &&
            (r[c1.row][c1.col] == 2 || r[c1.row][c1.col] == 4) &&
            (r[c2.row][c2.col] == 2 || r[c2.row][c2.col] == 4) &&
            forall a, b :: 0 <= a < GridSize && 0 <= b < GridSize && Cell(a, b) != c1 && Cell(a, b) != c2 ==> r[a][b] == 0
    ensures TileGrid(InitialGrid(cellDraw1, valueDraw1, cellDraw2, valueDraw2))
    ensures Movable(InitialGrid(cellDraw1, valueDraw1, cellDraw2, valueDraw2))
  {
    TwoTilesOnEmpty(EmptyGrid(), cellDraw1, valueDraw1, cellDraw2, valueDraw2);
    var g1 := PlaceTile(EmptyGrid(), cellDraw1, valueDraw1);
    var r := InitialGrid(cellDraw1, valueDraw1, cellDraw2, valueDraw2);
    var c1 := ChosenCell(EmptyGrid(), cellDraw1);
    var c2 := ChosenCell(g1, cellDraw2);
    var third := if Cell(0, 2) != c1 && Cell(0, 2) != c2 then Cell(0, 2)
                 else if Cell(0, 1) != c1 && Cell(0, 1) != c2 then Cell(0, 1)
                 else Cell(0, 0);
    assert r[third.row][third.col] == 0;
    TileGridCells(r);
    assert IsTile(2) && IsTile(4);
  }

  /* ---------------------------------------------------------------------------------- */
  /* The game                                                                            */

  /** `handleMove`'s switch over the direction. */
  method MoveIn(grid: Grid, d: Direction) returns (r: MoveResult)
    requires IsGrid(grid)
    ensures r == Move(grid, d)
  {
    match d
    case Left => r := MoveLeft(grid);
    case Right => r := MoveRight(grid);
    case Up => r := MoveUp(grid);
    case Down => r := MoveDown(grid);
  }

  /** The board component's state: `grid`, `score` and `gameStatus`. The random draws of
      `Math.random()` are parameters of the methods that use them. */
  class Game {
    var grid: Grid
    var score: nat
    var status: Status

    /** The grid holds tiles, and the game is over exactly when `canMove` rejects the grid. */
    ghost predicate Valid()
      reads this
    {
      TileGrid(grid) && (status == GameOver <==> !Movable(grid))
    }

    /** The mount effect: `resetGame` on a fresh board. */
    constructor (cellDraw1: real, valueDraw1: real, cellDraw2: real, valueDraw2: real)
      requires 0.0 <= cellDraw1 < 1.0 && 0.0 <= cellDraw2 < 1.0
      ensures Valid()
      ensures grid == InitialGrid(cellDraw1, valueDraw1, cellDraw2, valueDraw2) && score == 0 && status == Playing
    {
      var newGrid := InitializeGrid(cellDraw1, valueDraw1, cellDraw2, valueDraw2);
      grid := newGrid;
      score := 0;
      status := Playing;
      InitialGridFacts(cellDraw1, valueDraw1, cellDraw2, valueDraw2);
    }

    /** `resetGame` */
    method ResetGame(cellDraw1: real, valueDraw1: real, cellDraw2: real, valueDraw2: real)
      requires 0.0 <= cellDraw1 < 1.0 && 0.0 <= cellDraw2 < 1.0
      modifies this
      ensures Valid()
      ensures grid == InitialGrid(cellDraw1, valueDraw1, cellDraw2, valueDraw2) && score == 0 && status == Playing
    {
      var newGrid := InitializeGrid(cellDraw1, valueDraw1, cellDraw2, valueDraw2);
      grid := newGrid;
      score := 0;
      status := Playing;
      InitialGridFacts(cellDraw1, valueDraw1, cellDraw2, valueDraw2);
    }

    /** `handleMove`: nothing once the game is over; otherwise the move, `won` when a merge
        made 2048 while playing, and, when something moved, one random tile, the points,
        and `gameOver` exactly when `canMove` rejects the new grid. */
    method HandleMove(d: Direction, cellDraw: real, valueDraw: real)
      requires Valid() && 0.0 <= cellDraw < 1.0
      modifies this
      ensures Valid()
      ensures old(status) == GameOver ==> grid == old(grid) && score == old(score) && status == GameOver
      ensures old(status) != GameOver ==>
                var m := Move(old(grid), d);
                grid == (if m.moved then PlaceTile(m.grid, cellDraw, valueDraw) else old(grid)) &&
                score == old(score) + (if m.moved then m.score else 0) &&
                status == (if m.moved && !Movable(grid) then GameOver
                           else if m.reached2048 && old(status) == Playing then Won
                           else old(status))
      ensures !Move(old(grid), d).moved ==>
                grid == old(grid) && score == old(score) && status == old(status)
    {
      if status == GameOver {
        return;
      }
      var result := MoveIn(grid, d);
      if !result.moved {
        NoMoveNoChange(grid, d);
      }
      if result.reached2048 && status == Playing {
        status := Won;
      }
      if result.moved {
        MoveTiles(grid, d);
        PlaceTileTiles(result.grid, cellDraw, valueDraw);
        var newGrid := AddRandomTile(result.grid, cellDraw, valueDraw);
        grid := newGrid;
        score := score + result.score;
        var b := CanMove(newGrid);
        if !b {
          status := GameOver;
        }
      }
    }
  }

  /** A move that changes nothing leaves the whole state as it was: no tile, no points, and
      no `won`. */
  lemma NoMoveNoChange(g: Grid, d: Direction)
    requires IsGrid(g) && !Move(g, d).moved
    ensures Move(g, d).grid == g && Move(g, d).score == 0 && !Move(g, d).reached2048
  {
    MovedIff(g, d);
    ScoreMeansMoved(g, d);
  }
}
