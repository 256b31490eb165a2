/**
 * Minesweeper on a 10x10 field holding 15 mines.
 *
 * A board is a grid of cells, row by row. Each cell records whether it holds a mine, whether it
 * has been revealed or flagged, and (for a safe cell) how many mines lie around it. Mines are
 * placed by a rejection loop over random positions, which come in as `draws`. Revealing a safe
 * cell runs a breadth-first flood fill from it. The game is won once all 85 safe cells are
 * revealed, and lost when a mine is revealed.
 */
module Minesweeper {

  const GridSize := 10
  const MineCount := 15
  /** The number of safe cells: the reveal handler's win threshold. */
  const SafeCells := GridSize * GridSize - MineCount

  datatype Cell = Cell(isMine: bool, isRevealed: bool, isFlagged: bool, neighborMines: nat)

  type Board = seq<seq<Cell>>

  datatype Status = Playing | Won | Lost

  /** A grid position. The flood fill also queues positions just off the board. */
  datatype Pos = Pos(row: int, col: int)

  predicate IsBoard(g: Board)
  {
    |g| == GridSize && forall r :: 0 <= r < GridSize ==> |g[r]| == GridSize
  }

  predicate InBounds(p: Pos)
  {
    0 <= p.row < GridSize && 0 <= p.col < GridSize
  }

  function At(g: Board, p: Pos): Cell
    requires IsBoard(g) && InBounds(p)
  {
    g[p.row][p.col]
  }

  /** The board with the cell at `p` replaced and every other cell kept. */
  function Update(g: Board, p: Pos, cell: Cell): (r: Board)
    requires IsBoard(g) && InBounds(p)
    ensures IsBoard(r) && At(r, p) == cell
    ensures forall q :: InBounds(q) && q != p ==> At(r, q) == At(g, q)
  {
    var row: seq<Cell> := g[p.row][p.col := cell];
    g[p.row := row]
  }

  /** A board of blank cells: no mine, hidden, unflagged, count 0. */
  function BlankBoard(): (g: Board)
    ensures IsBoard(g)
    ensures forall q :: InBounds(q) ==> At(g, q) == Cell(false, false, false, 0)
  {
    seq(GridSize, _ => seq(GridSize, _ => Cell(false, false, false, 0)))
  }

  /** A position's rank in row-major order, the order of the engine's nested row/column loops. */
  function Index(p: Pos): int
  {
    p.row * GridSize + p.col
  }

  /** Distinct cells have distinct ranks. */
  lemma IndexInjective(p: Pos, q: Pos)
    requires InBounds(p) && InBounds(q)
    ensures Index(p) == Index(q) <==> p == q
  {
  }

  /** Every cell of the board, in row-major order. */
  function AllCells(): (cs: seq<Pos>)
    ensures |cs| == GridSize * GridSize
    ensures forall k :: 0 <= k < |cs| ==> InBounds(cs[k]) && Index(cs[k]) == k
  {
    seq(GridSize * GridSize, k => Pos(k / GridSize, k % GridSize))
  }

  /** Cell (r, c) sits at rank r * GridSize + c of `AllCells`. */
  lemma AllCellsAt(r: int, c: int)
    requires InBounds(Pos(r, c))
    ensures AllCells()[r * GridSize + c] == Pos(r, c)
  {
    var q := AllCells()[r * GridSize + c];
    assert q.row * GridSize + q.col == r * GridSize + c;
  }

  /** Counting cell (r, c) after the cells before it in row-major order. */
  lemma RankStep(g: Board, r: int, c: int, k: Kind)
    requires IsBoard(g) && InBounds(Pos(r, c))
    ensures Count(g, AllCells()[..r * GridSize + c + 1], k) ==
      Count(g, AllCells()[..r * GridSize + c], k) + (if Holds(k, At(g, Pos(r, c))) then 1 else 0)
  {
    var n := r * GridSize + c;
    AllCellsAt(r, c);
    assert AllCells()[..n + 1][..n] == AllCells()[..n];
  }

  ghost predicate Distinct(ps: seq<Pos>)
  {
    forall i, j :: 0 <= i < j < |ps| ==> ps[i] != ps[j]
  }

  lemma AllCellsFacts()
    ensures Distinct(AllCells())
    ensures forall q :: q in AllCells() <==> InBounds(q)
  {
    forall q | InBounds(q)
      ensures q in AllCells()
    {
      var k := Index(q);
      assert AllCells()[k] == q;
    }
  }

  /** Two positions at most one step apart in each direction (a position is adjacent to itself). */
  predicate Adjacent(p: Pos, q: Pos)
  {
    -1 <= q.row - p.row <= 1 && -1 <= q.col - p.col <= 1
  }

  /** The 3x3 window centred on `p`, in the order of the engine's offset loops (row offset outer). */
  function Window(p: Pos): seq<Pos>
  {
    var r, c := p.row, p.col;
    [Pos(r - 1, c - 1), Pos(r - 1, c), Pos(r - 1, c + 1),
     Pos(r, c - 1), Pos(r, c), Pos(r, c + 1),
     Pos(r + 1, c - 1), Pos(r + 1, c), Pos(r + 1, c + 1)]
  }

  /** Offset (i, j) sits at rank 3 * (i + 1) + (j + 1) of the window. */
  lemma WindowAt(p: Pos, i: int, j: int)
    requires -1 <= i <= 1 && -1 <= j <= 1
    ensures Window(p)[3 * (i + 1) + (j + 1)] == Pos(p.row + i, p.col + j)
  {
  }

  lemma WindowFacts(p: Pos)
    ensures Distinct(Window(p))
    ensures forall q :: q in Window(p) <==> Adjacent(p, q)
  {
    forall q | Adjacent(p, q)
      ensures q in Window(p)
    {
      var k := 3 * (q.row - p.row + 1) + (q.col - p.col + 1);
      assert Window(p)[k] == q;
    }
  }

  /** The classes of cell the engine counts or tests. */
  datatype Kind = Mined | Flagged | Hidden | HiddenSafe | RevealedSafe | RevealedMine

  predicate Holds(k: Kind, c: Cell)
  {
    match k
    case Mined => c.isMine
    case Flagged => c.isFlagged
    case Hidden => !c.isRevealed
    case HiddenSafe => !c.isRevealed && !c.isMine
    case RevealedSafe => c.isRevealed && !c.isMine
    case RevealedMine => c.isRevealed && c.isMine
  }

  /** 1 when `p` is on the board and its cell is of kind `k`, otherwise 0. */
  function Tally(g: Board, p: Pos, k: Kind): nat
    requires IsBoard(g)
  {
    if InBounds(p) && Holds(k, At(g, p)) then 1 else 0
  }

  /** How many positions of `ps` are on the board with a cell of kind `k`. */
  function Count(g: Board, ps: seq<Pos>, k: Kind): nat
    requires IsBoard(g)
  {
    if ps == [] then 0 else Count(g, ps[..|ps| - 1], k) + Tally(g, ps[|ps| - 1], k)
  }

  /** The number of cells of kind `k` on the whole board. */
  function Total(g: Board, k: Kind): nat
    requires IsBoard(g)
  {
    Count(g, AllCells(), k)
  }

  /** Extending a prefix of `ps` by one position adds that position's tally. */
  lemma CountStep(g: Board, ps: seq<Pos>, n: nat, k: Kind)
    requires IsBoard(g) && n < |ps|
    ensures Count(g, ps[..n + 1], k) == Count(g, ps[..n], k) + Tally(g, ps[n], k)
  {
    assert ps[..n + 1][..n] == ps[..n];
  }

  ghost function Where(g: Board, ps: seq<Pos>, k: Kind): set<Pos>
    requires IsBoard(g)
  {
    set q | q in ps && InBounds(q) && Holds(k, At(g, q))
  }

  /** Appending a position adds it to the matching set exactly when its cell matches. */
  lemma WhereSnoc(g: Board, ps: seq<Pos>, k: Kind)
    requires IsBoard(g) && ps != []
    ensures Where(g, ps, k) == Where(g, ps[..|ps| - 1], k) +
      (if Tally(g, ps[|ps| - 1], k) == 1 then {ps[|ps| - 1]} else {})
  {
    assert ps == ps[..|ps| - 1] + [ps[|ps| - 1]];
  }

  /** Over distinct positions, the count is the size of the set of matching positions. */
  lemma {:induction false} CountIsCard(g: Board, ps: seq<Pos>, k: Kind)
    requires IsBoard(g) && Distinct(ps)
    ensures Count(g, ps, k) == |Where(g, ps, k)|
    decreases |ps|
  {
    if ps != [] {
      var init, last := ps[..|ps| - 1], ps[|ps| - 1];
      assert Distinct(init);
      CountIsCard(g, init, k);
      WhereSnoc(g, ps, k);
      assert last !in Where(g, init, k);
    }
  }

  /** Boards that agree on kind `k` at every position of `ps` have the same count. */
  lemma {:induction false} CountAgree(g: Board, h: Board, ps: seq<Pos>, k: Kind)
    requires IsBoard(g) && IsBoard(h)
    requires forall q :: q in ps && InBounds(q) ==> Holds(k, At(g, q)) == Holds(k, At(h, q))
    ensures Count(g, ps, k) == Count(h, ps, k)
    decreases |ps|
  {
    if ps != [] {
      var init := ps[..|ps| - 1];
      assert forall q :: q in init ==> q in ps;
      CountAgree(g, h, init, k);
    }
  }

  /** Replacing one cell changes a count over distinct positions by at most that cell's tally. */
  lemma {:induction false} CountUpdate(g: Board, ps: seq<Pos>, p: Pos, cell: Cell, k: Kind)
    requires IsBoard(g) && InBounds(p) && Distinct(ps)
    ensures Count(Update(g, p, cell), ps, k) as int ==
      Count(g, ps, k) + (if p in ps then Tally(Update(g, p, cell), p, k) - Tally(g, p, k) else 0)
    decreases |ps|
  {
    if ps != [] {
      var init, last := ps[..|ps| - 1], ps[|ps| - 1];
      assert ps == init + [last];
      assert Distinct(init);
      CountUpdate(g, init, p, cell, k);
      assert last == p ==> p !in init;
    }
  }

  /** A count is zero exactly when no position of `ps` holds a cell of that kind. */
  lemma {:induction false} CountZero(g: Board, ps: seq<Pos>, k: Kind)
    requires IsBoard(g)
    ensures Count(g, ps, k) == 0 <==> forall q :: q in ps && InBounds(q) ==> !Holds(k, At(g, q))
    decreases |ps|
  {
    if ps != [] {
      var init, last := ps[..|ps| - 1], ps[|ps| - 1];
      assert ps == init + [last];
      CountZero(g, init, k);
    }
  }

  /** On-board cells split into revealed safe cells, hidden safe cells and mines. */
  lemma {:induction false} CountPartition(g: Board, ps: seq<Pos>)
    requires IsBoard(g)
    requires forall q :: q in ps ==> InBounds(q)
    ensures Count(g, ps, RevealedSafe) + Count(g, ps, HiddenSafe) + Count(g, ps, Mined) == |ps|
    ensures Count(g, ps, RevealedMine) <= Count(g, ps, Mined)
    decreases |ps|
  {
    if ps != [] {
      var init := ps[..|ps| - 1];
      assert forall q :: q in init ==> q in ps;
      CountPartition(g, init);
    }
  }

  // ---------------------------------------------------------------------------------------------
  // Placing the mines

  ghost function Drawn(ds: seq<Pos>): set<Pos>
  {
    set d | d in ds
  }

  /**
   * The mined positions once the placement loop has consumed the draws `ds`: a draw not yet
   * mined is mined while fewer than `MineCount` mines are down, and any other draw is skipped.
   */
  ghost function MinesPlaced(ds: seq<Pos>): set<Pos>
    decreases |ds|
  {
    if ds == [] then {}
    else
      var s := MinesPlaced(ds[..|ds| - 1]);
      if |s| < MineCount then s + {ds[|ds| - 1]} else s
  }

  lemma {:induction false} MinesPlacedFacts(ds: seq<Pos>)
    ensures MinesPlaced(ds) <= Drawn(ds)
    ensures |MinesPlaced(ds)| <= MineCount
    ensures |MinesPlaced(ds)| < MineCount ==> MinesPlaced(ds) == Drawn(ds)
    decreases |ds|
  {
    if ds != [] {
      var init, last := ds[..|ds| - 1], ds[|ds| - 1];
      assert ds == init + [last];
      assert Drawn(ds) == Drawn(init) + {last};
      MinesPlacedFacts(init);
    }
  }

  /** Once `MineCount` mines are down, later draws change nothing. */
  lemma {:induction false} MinesPlacedSaturated(ds: seq<Pos>, n: nat)
    requires n <= |ds| && |MinesPlaced(ds[..n])| == MineCount
    ensures MinesPlaced(ds) == MinesPlaced(ds[..n])
    decreases |ds|
  {
    if n < |ds| {
      var init := ds[..|ds| - 1];
      assert init[..n] == ds[..n];
      MinesPlacedSaturated(init, n);
    } else {
      assert ds[..n] == ds;
    }
  }

  /** When the draws hold at least `MineCount` distinct positions, exactly that many are mined. */
  lemma MinesPlacedCount(ds: seq<Pos>)
    requires |Drawn(ds)| >= MineCount
    ensures |MinesPlaced(ds)| == MineCount
    ensures MinesPlaced(ds) <= Drawn(ds)
  {
    MinesPlacedFacts(ds);
  }

  /** While fewer than `MineCount` mines are down, some draw is left. */
  lemma DrawsLeft(ds: seq<Pos>, k: nat)
    requires k <= |ds| && |Drawn(ds)| >= MineCount && |MinesPlaced(ds[..k])| < MineCount
    ensures k < |ds|
  {
    if k == |ds| {
      assert ds[..k] == ds;
      MinesPlacedFacts(ds);
    }
  }

  /** One more draw while fewer than `MineCount` mines are down mines its position. */
  lemma PlaceStep(ds: seq<Pos>, k: nat)
    requires k < |ds| && |MinesPlaced(ds[..k])| < MineCount
    ensures MinesPlaced(ds[..k + 1]) == MinesPlaced(ds[..k]) + {ds[k]}
  {
    assert ds[..k + 1][..k] == ds[..k];
  }

  /**
   * The mine-placement loop of `initializeGrid`. `draws` are the random positions the loop draws,
   * in order (each coordinate already floored into 0..9). The source loop draws until 15 mines
   * are down, so the stream must eventually hold 15 distinct positions.
   */
  method PlaceMines(draws: seq<Pos>) returns (g: Board)
    requires forall d :: d in draws ==> InBounds(d)
    requires |Drawn(draws)| >= MineCount
    ensures IsBoard(g)
    ensures forall q :: InBounds(q) ==> At(g, q) == Cell(q in MinesPlaced(draws), false, false, 0)
  {
    g := BlankBoard();
    var minesPlaced := 0;
    var k := 0;
    while minesPlaced < MineCount
      invariant 0 <= k <= |draws|
      invariant IsBoard(g)
      invariant minesPlaced == |MinesPlaced(draws[..k])|
      invariant forall q :: InBounds(q) ==> At(g, q) == Cell(q in MinesPlaced(draws[..k]), false, false, 0)
      decreases |draws| - k
    {
      DrawsLeft(draws, k);
      var p := draws[k];
      PlaceStep(draws, k);
      if !At(g, p).isMine {
        g := Update(g, p, At(g, p).(isMine := true));
        minesPlaced := minesPlaced + 1;
      }
      k := k + 1;
    }
    MinesPlacedFacts(draws[..k]);
    MinesPlacedSaturated(draws, k);
  }

  // ---------------------------------------------------------------------------------------------
  // Neighbour counts

  /** The mines in the 3x3 window around `p`: the count the engine stores in a safe cell. */
  function NeighbourMines(g: Board, p: Pos): nat
    requires IsBoard(g)
  {
    Count(g, Window(p), Mined)
  }

  /** The mined cells among the (up to) eight on-board neighbours of `p`. */
  ghost function MinedNeighbours(g: Board, p: Pos): set<Pos>
    requires IsBoard(g)
  {
    set r, c | p.row - 1 <= r <= p.row + 1 && p.col - 1 <= c <= p.col + 1 && Pos(r, c) != p
                && InBounds(Pos(r, c)) && At(g, Pos(r, c)).isMine :: Pos(r, c)
  }

  /** For a safe cell, the stored count is the number of mined cells among its eight neighbours. */
  lemma NeighbourMinesCounts(g: Board, p: Pos)
    requires IsBoard(g) && InBounds(p) && !At(g, p).isMine
    ensures NeighbourMines(g, p) == |MinedNeighbours(g, p)|
  {
    WindowFacts(p);
    CountIsCard(g, Window(p), Mined);
    assert Where(g, Window(p), Mined) == MinedNeighbours(g, p);
  }

  /** Boards with the same mines have the same neighbour counts. */
  lemma SameMinesSameCounts(g: Board, h: Board, p: Pos)
    requires IsBoard(g) && IsBoard(h)
    requires forall q :: InBounds(q) ==> At(g, q).isMine == At(h, q).isMine
    ensures NeighbourMines(g, p) == NeighbourMines(h, p)
  {
    CountAgree(g, h, Window(p), Mined);
  }

  /** The offset loops of `initializeGrid` counting the mines around `p`. */
  method CountAround(g: Board, p: Pos) returns (count: nat)
    requires IsBoard(g)
    ensures count == NeighbourMines(g, p)
  {
    count := 0;
    var i := -1;
    while i <= 1
      invariant -1 <= i <= 2
      invariant count == Count(g, Window(p)[..3 * (i + 1)], Mined)
    {
      count := CountOffsetRow(g, p, i, count);
      i := i + 1;
    }
    assert Window(p)[..9] == Window(p);
  }

  /** The inner offset loop: the three cells of row offset `i` of the window around `p`. */
  method CountOffsetRow(g: Board, p: Pos, i: int, count0: nat) returns (count: nat)
    requires IsBoard(g) && -1 <= i <= 1
    requires count0 == Count(g, Window(p)[..3 * (i + 1)], Mined)
    ensures count == Count(g, Window(p)[..3 * (i + 1) + 3], Mined)
  {
    count := count0;
    var j := -1;
    while j <= 1
      invariant -1 <= j <= 2
      invariant count == Count(g, Window(p)[..3 * (i + 1) + (j + 1)], Mined)
    {
      var q := Pos(p.row + i, p.col + j);
      WindowStep(g, p, i, j);
      if InBounds(q) && At(g, q).isMine {
        count := count + 1;
      }
      j := j + 1;
    }
  }

  /** Offset (i, j) of the window adds its cell to the running mine count. */
  lemma WindowStep(g: Board, p: Pos, i: int, j: int)
    requires IsBoard(g) && -1 <= i <= 1 && -1 <= j <= 1
    ensures var n, q := 3 * (i + 1) + (j + 1), Pos(p.row + i, p.col + j);
      Count(g, Window(p)[..n + 1], Mined) ==
      Count(g, Window(p)[..n], Mined) + (if InBounds(q) && At(g, q).isMine then 1 else 0)
  {
    WindowAt(p, i, j);
    CountStep(g, Window(p), 3 * (i + 1) + (j + 1), Mined);
  }

  /** The cells before rank `n` carry their neighbour count (safe cells only); the rest are as in `m`. */
  ghost predicate CountedUpTo(m: Board, g: Board, n: int)
  {
    IsBoard(m) && IsBoard(g) &&
    forall q :: InBounds(q) ==>
      At(g, q) == if Index(q) < n && !At(m, q).isMine then At(m, q).(neighborMines := NeighbourMines(m, q)) else At(m, q)
  }

  /** Giving (or skipping, for a mine) the cell at rank `Index(p)` its count advances the loop state. */
  lemma CountedStep(m: Board, g: Board, p: Pos)
    requires CountedUpTo(m, g, Index(p)) && InBounds(p)
    ensures !At(g, p).isMine ==>
      CountedUpTo(m, Update(g, p, At(g, p).(neighborMines := NeighbourMines(m, p))), Index(p) + 1)
    ensures At(g, p).isMine ==> CountedUpTo(m, g, Index(p) + 1)
  {
    forall q | InBounds(q) && q != p
      ensures Index(q) < Index(p) + 1 <==> Index(q) < Index(p)
    {
      IndexInjective(p, q);
    }
  }

  /** The counting loops of `initializeGrid`: every safe cell gets the mine count of its window. */
  method ComputeCounts(m: Board) returns (g: Board)
    requires IsBoard(m)
    ensures IsBoard(g)
    ensures forall q :: InBounds(q) ==>
      At(g, q) == if At(m, q).isMine then At(m, q) else At(m, q).(neighborMines := NeighbourMines(m, q))
  {
    g := m;
    var r := 0;
    while r < GridSize
      invariant 0 <= r <= GridSize
      invariant CountedUpTo(m, g, r * GridSize)
    {
      var c := 0;
      while c < GridSize
        invariant 0 <= c <= GridSize
        invariant CountedUpTo(m, g, r * GridSize + c)
      {
        var p := Pos(r, c);
        CountedStep(m, g, p);
        if !At(g, p).isMine {
          var count := CountAround(g, p);
          SameMinesSameCounts(g, m, p);
          g := Update(g, p, At(g, p).(neighborMines := count));
        }
        c := c + 1;
      }
      r := r + 1;
    }
  }

  /** The board `initializeGrid` builds from the draws: mines where placed, all else hidden and blank. */
  ghost predicate Dealt(g: Board, draws: seq<Pos>)
  {
    IsBoard(g) &&
    forall q :: InBounds(q) ==>
      At(g, q) == Cell(q in MinesPlaced(draws), false, false, if q in MinesPlaced(draws) then 0 else NeighbourMines(g, q))
  }

  /** `initializeGrid`: place the mines, then count the mines around each safe cell. */
  method InitializeGrid(draws: seq<Pos>) returns (g: Board)
    requires forall d :: d in draws ==> InBounds(d)
    requires |Drawn(draws)| >= MineCount
    ensures Dealt(g, draws)
  {
    var m := PlaceMines(draws);
    g := ComputeCounts(m);
    forall q | InBounds(q)
      ensures NeighbourMines(g, q) == NeighbourMines(m, q)
    {
      SameMinesSameCounts(g, m, q);
    }
  }

  /** A board whose safe cells carry their neighbour counts. */
  ghost predicate WellFormed(g: Board)
  {
    IsBoard(g) &&
    forall q :: InBounds(q) && !At(g, q).isMine ==> At(g, q).neighborMines == NeighbourMines(g, q)
  }

  /** A freshly dealt board has exactly `MineCount` mines and 85 hidden safe cells, none flagged. */
  lemma DealtFacts(g: Board, draws: seq<Pos>)
    requires Dealt(g, draws)
    requires forall d :: d in draws ==> InBounds(d)
    requires |Drawn(draws)| >= MineCount
    ensures WellFormed(g)
    ensures Total(g, Mined) == MineCount && Total(g, Flagged) == 0
    ensures Total(g, RevealedMine) == 0 && Total(g, HiddenSafe) == SafeCells
  {
    AllCellsFacts();
    MinesPlacedCount(draws);
    CountIsCard(g, AllCells(), Mined);
    assert Where(g, AllCells(), Mined) == MinesPlaced(draws) by {
      forall q | q in MinesPlaced(draws)
        ensures InBounds(q)
      {
        MinesPlacedFacts(draws);
        assert q in Drawn(draws);
      }
    }
    CountZero(g, AllCells(), Flagged);
    CountZero(g, AllCells(), RevealedMine);
    CountZero(g, AllCells(), RevealedSafe);
    CountPartition(g, AllCells());
  }

  // ---------------------------------------------------------------------------------------------
  // Revealing: the losing case

  /** Every mine of `g0` shown, every other cell as it was. */
  ghost predicate MinesShown(g0: Board, g: Board)
  {
    IsBoard(g0) && IsBoard(g) &&
    forall q :: InBounds(q) ==>
      At(g, q) == if At(g0, q).isMine then At(g0, q).(isRevealed := true) else At(g0, q)
  }

  ghost predicate MinesShownUpTo(g0: Board, g: Board, n: int)
  {
    IsBoard(g0) && IsBoard(g) &&
    forall q :: InBounds(q) ==>
      At(g, q) == if Index(q) < n && At(g0, q).isMine then At(g0, q).(isRevealed := true) else At(g0, q)
  }

  /** The loops of `revealCell` that show every mine once a mine is hit. */
  method RevealMines(g0: Board) returns (g: Board)
    requires IsBoard(g0)
    ensures MinesShown(g0, g)
  {
    g := g0;
    var r := 0;
    while r < GridSize
      invariant 0 <= r <= GridSize
      invariant MinesShownUpTo(g0, g, r * GridSize)
    {
      var c := 0;
      while c < GridSize
        invariant 0 <= c <= GridSize
        invariant MinesShownUpTo(g0, g, r * GridSize + c)
      {
        var p := Pos(r, c);
        if At(g, p).isMine {
          g := Update(g, p, At(g, p).(isRevealed := true));
        }
        c := c + 1;
      }
      r := r + 1;
    }
  }

  // ---------------------------------------------------------------------------------------------
  // Revealing: the flood fill

  /** `g` differs from `g0` only in which cells are revealed, and hides nothing `g0` revealed. */
  ghost predicate RevealsOnly(g0: Board, g: Board)
  {
    IsBoard(g0) && IsBoard(g) &&
    forall q :: InBounds(q) ==>
      At(g, q) == At(g0, q).(isRevealed := At(g, q).isRevealed) && (At(g0, q).isRevealed ==> At(g, q).isRevealed)
  }

  ghost predicate NewlyRevealed(g0: Board, g: Board, q: Pos)
  {
    IsBoard(g0) && IsBoard(g) && InBounds(q) && !At(g0, q).isRevealed && At(g, q).isRevealed
  }

  /** Nothing newly revealed is a mine or flagged. */
  ghost predicate SafeReveals(g0: Board, g: Board)
  {
    IsBoard(g0) &&
    forall q :: NewlyRevealed(g0, g, q) ==> !At(g0, q).isMine && !At(g0, q).isFlagged
  }

  /** A newly revealed cell with no mine around it: the cells the fill expands from. */
  ghost predicate OpenedZero(g0: Board, g: Board, q: Pos)
  {
    NewlyRevealed(g0, g, q) && At(g, q).neighborMines == 0
  }

  /**
   * A chain of positions from `start` in which each position but the last is a cell the fill
   * expanded from and lies next to the following one.
   */
  ghost predicate ZeroPath(g0: Board, g: Board, start: Pos, path: seq<Pos>)
  {
    |path| >= 1 && path[0] == start &&
    forall i :: 0 <= i < |path| - 1 ==> OpenedZero(g0, g, path[i]) && Adjacent(path[i], path[i + 1])
  }

  /** `p` ends a chain from the start through cells the fill expanded from. */
  ghost predicate Reached(g0: Board, g: Board, start: Pos, p: Pos)
  {
    exists path :: ZeroPath(g0, g, start, path) && path[|path| - 1] == p
  }

  /** The start is reached by the chain of itself alone. */
  lemma StartReached(g0: Board, g: Board, start: Pos)
    ensures Reached(g0, g, start, start)
  {
    assert ZeroPath(g0, g, start, [start]);
  }

  /** A position next to a reached cell the fill expanded from is reached. */
  lemma ReachedExtend(g0: Board, g: Board, start: Pos, cur: Pos, x: Pos)
    requires Reached(g0, g, start, cur) && OpenedZero(g0, g, cur) && Adjacent(cur, x)
    ensures Reached(g0, g, start, x)
  {
    var path :| ZeroPath(g0, g, start, path) && path[|path| - 1] == cur;
    var path' := path + [x];
    forall i | 0 <= i < |path'| - 1
      ensures OpenedZero(g0, g, path'[i]) && Adjacent(path'[i], path'[i + 1])
    {
      if i < |path| - 1 {
        assert path'[i] == path[i] && path'[i + 1] == path[i + 1];
      } else {
        assert path'[i] == cur && path'[i + 1] == x;
      }
    }
    assert ZeroPath(g0, g, start, path');
  }

  /** Everything newly revealed was reached from the start through zero cells. */
  ghost predicate Spread(g0: Board, g: Board, start: Pos)
  {
    forall p :: NewlyRevealed(g0, g, p) ==> Reached(g0, g, start, p)
  }

  /** A start with a mine around it expands nothing: it is the only cell a spread from it opens. */
  lemma {:induction false} NumberedStartAlone(g0: Board, g: Board, start: Pos, p: Pos)
    requires Spread(g0, g, start) && NewlyRevealed(g0, g, p)
    requires InBounds(start) && At(g, start).neighborMines != 0
    ensures p == start
  {
    var path :| ZeroPath(g0, g, start, path) && path[|path| - 1] == p;
    assert |path| == 1;
  }

  /** A position the fill leaves alone: off the board, already revealed, flagged or a mine. */
  ghost predicate Settled(g: Board, p: Pos)
  {
    IsBoard(g) && (!InBounds(p) || At(g, p).isRevealed || At(g, p).isFlagged || At(g, p).isMine)
  }

  /** Every neighbour of a cell the fill expanded from is settled: the fill stopped only at its rim. */
  ghost predicate Closed(g0: Board, g: Board)
  {
    forall q, p :: OpenedZero(g0, g, q) && Adjacent(q, p) ==> Settled(g, p)
  }

  /** The flood-fill loop invariant. */
  ghost predicate FloodInv(g0: Board, start: Pos, g: Board, queue: seq<Pos>, visited: set<Pos>)
  {
    RevealsOnly(g0, g) && SafeReveals(g0, g) && Spread(g0, g, start) &&
    (forall v :: v in visited ==> Settled(g, v)) &&
    (start in visited || start in queue) &&
    (forall q, p :: OpenedZero(g0, g, q) && Adjacent(q, p) ==> p in visited || p in queue) &&
    (forall x :: x in queue ==> Reached(g0, g, start, x))
  }

  /** Dropping a settled position from the front of the queue keeps the invariant. */
  lemma SkipStep(g0: Board, start: Pos, g: Board, queue: seq<Pos>, visited: set<Pos>)
    requires FloodInv(g0, start, g, queue, visited) && |queue| > 0 && Settled(g, queue[0])
    ensures FloodInv(g0, start, g, queue[1..], visited + {queue[0]})
  {
    assert queue == [queue[0]] + queue[1..];
  }

  /** Revealing one more hidden cell keeps every position reached. */
  lemma ReachedStays(g0: Board, g: Board, start: Pos, cur: Pos, p: Pos)
    requires IsBoard(g0) && IsBoard(g) && InBounds(cur) && !At(g, cur).isRevealed
    requires Reached(g0, g, start, p)
    ensures Reached(g0, Update(g, cur, At(g, cur).(isRevealed := true)), start, p)
  {
    var h := Update(g, cur, At(g, cur).(isRevealed := true));
    var path :| ZeroPath(g0, g, start, path) && path[|path| - 1] == p;
    forall i | 0 <= i < |path| - 1
      ensures OpenedZero(g0, h, path[i])
    {
      assert OpenedZero(g0, g, path[i]);
    }
    assert ZeroPath(g0, h, start, path);
  }

  /** Revealing the hidden, safe, unflagged cell at the front of the queue keeps the invariant. */
  lemma RevealStep(g0: Board, start: Pos, g: Board, queue: seq<Pos>, visited: set<Pos>)
    requires FloodInv(g0, start, g, queue, visited) && |queue| > 0
    requires !Settled(g, queue[0])
    ensures var cur := queue[0];
      var h := Update(g, cur, At(g, cur).(isRevealed := true));
      FloodInv(g0, start, h, queue[1..] + (if At(g, cur).neighborMines == 0 then Window(cur) else []),
               visited + {cur})
  {
    var cur := queue[0];
    var h := Update(g, cur, At(g, cur).(isRevealed := true));
    var pushed := if At(g, cur).neighborMines == 0 then Window(cur) else [];
    var queue', visited' := queue[1..] + pushed, visited + {cur};
    assert queue == [cur] + queue[1..];
    WindowFacts(cur);
    assert RevealsOnly(g0, h);
    assert SafeReveals(g0, h);
    forall p | NewlyRevealed(g0, h, p)
      ensures Reached(g0, h, start, p)
    {
      if p == cur {
        ReachedStays(g0, g, start, cur, cur);
      } else {
        ReachedStays(g0, g, start, cur, p);
      }
    }
    forall v | v in visited'
      ensures Settled(h, v)
    {
    }
    forall q, p | OpenedZero(g0, h, q) && Adjacent(q, p)
      ensures p in visited' || p in queue'
    {
      if q != cur {
        assert OpenedZero(g0, g, q);
      }
    }
    forall x | x in queue'
      ensures Reached(g0, h, start, x)
    {
      if x in queue[1..] {
        ReachedStays(g0, g, start, cur, x);
      } else {
        ReachedStays(g0, g, start, cur, cur);
        ReachedExtend(g0, h, start, cur, x);
      }
    }
  }

  /** Revealing a hidden cell lowers the number of hidden cells. */
  lemma HiddenDrops(g: Board, p: Pos)
    requires IsBoard(g) && InBounds(p) && !At(g, p).isRevealed
    ensures Total(Update(g, p, At(g, p).(isRevealed := true)), Hidden) < Total(g, Hidden)
  {
    AllCellsFacts();
    CountUpdate(g, AllCells(), p, At(g, p).(isRevealed := true), Hidden);
  }

  /** The nested offset loops of `revealCell` queueing the 3x3 window around `cur`. */
  method PushWindow(queue: seq<Pos>, cur: Pos) returns (queue': seq<Pos>)
    ensures queue' == queue + Window(cur)
  {
    queue' := queue;
    var i := -1;
    while i <= 1
      invariant -1 <= i <= 2
      invariant queue' == queue + Window(cur)[..3 * (i + 1)]
    {
      var j := -1;
      while j <= 1
        invariant -1 <= j <= 2
        invariant queue' == queue + Window(cur)[..3 * (i + 1) + (j + 1)]
      {
        var n := 3 * (i + 1) + (j + 1);
        WindowAt(cur, i, j);
        assert Window(cur)[..n + 1] == Window(cur)[..n] + [Pos(cur.row + i, cur.col + j)];
        queue' := queue' + [Pos(cur.row + i, cur.col + j)];
        j := j + 1;
      }
      i := i + 1;
    }
    assert Window(cur)[..9] == Window(cur);
  }

  /**
   * The breadth-first flood fill of `revealCell` from `start`: pop the front of the queue, skip it
   * if seen, mark it seen, skip it if it is off the board, revealed, flagged or a mine, otherwise
   * reveal it and, when no mine is around it, queue its whole 3x3 window.
   */
  method FloodFill(g0: Board, start: Pos) returns (g: Board)
    requires IsBoard(g0) && InBounds(start)
    ensures RevealsOnly(g0, g) && SafeReveals(g0, g)
    ensures Settled(g, start)
    ensures Spread(g0, g, start)
    ensures Closed(g0, g)
  {
    g := g0;
    var queue := [start];
    var visited: set<Pos> := {};
    StartReached(g0, g, start);
    while |queue| > 0
      invariant FloodInv(g0, start, g, queue, visited)
      decreases Total(g, Hidden), |queue|
    {
      ghost var queue0, visited0 := queue, visited;
      var cur := queue[0];
      queue := queue[1..];
      if cur !in visited {
        visited := visited + {cur};
        if InBounds(cur) && !At(g, cur).isRevealed && !At(g, cur).isFlagged && !At(g, cur).isMine {
          RevealStep(g0, start, g, queue0, visited0);
          HiddenDrops(g, cur);
          var zero := At(g, cur).neighborMines == 0;
          g := Update(g, cur, At(g, cur).(isRevealed := true));
          if zero {
            queue := PushWindow(queue, cur);
          }
        } else {
          SkipStep(g0, start, g, queue0, visited0);
        }
      } else {
        SkipStep(g0, start, g, queue0, visited0);
      }
    }
  }

  // ---------------------------------------------------------------------------------------------
  // Revealing: the win test

  /** The counting loops of `revealCell`: the number of revealed safe cells. */
  method CountRevealedSafe(g: Board) returns (n: nat)
    requires IsBoard(g)
    ensures n == Total(g, RevealedSafe)
  {
    n := 0;
    var r := 0;
    while r < GridSize
      invariant 0 <= r <= GridSize
      invariant n == Count(g, AllCells()[..r * GridSize], RevealedSafe)
    {
      var c := 0;
      while c < GridSize
        invariant 0 <= c <= GridSize
        invariant n == Count(g, AllCells()[..r * GridSize + c], RevealedSafe)
      {
        RankStep(g, r, c, RevealedSafe);
        if At(g, Pos(r, c)).isRevealed && !At(g, Pos(r, c)).isMine {
          n := n + 1;
        }
        c := c + 1;
      }
      r := r + 1;
    }
    assert AllCells()[..GridSize * GridSize] == AllCells();
  }

  /** With exactly `MineCount` mines, the win test holds exactly when every safe cell is revealed. */
  lemma WinTest(g: Board)
    requires IsBoard(g) && Total(g, Mined) == MineCount
    ensures Total(g, RevealedSafe) == SafeCells <==> Total(g, HiddenSafe) == 0
    ensures Total(g, HiddenSafe) == 0 <==> forall q :: InBounds(q) && !At(g, q).isMine ==> At(g, q).isRevealed
  {
    AllCellsFacts();
    CountPartition(g, AllCells());
    CountZero(g, AllCells(), HiddenSafe);
  }

  // ---------------------------------------------------------------------------------------------
  // What each handler keeps

  /** Showing the mines after hitting the mine at `p` keeps mines, flags and counts and shows a mine. */
  lemma LossFacts(g0: Board, g: Board, p: Pos)
    requires WellFormed(g0) && MinesShown(g0, g) && InBounds(p) && At(g0, p).isMine
    ensures WellFormed(g)
    ensures Total(g, Mined) == Total(g0, Mined) && Total(g, Flagged) == Total(g0, Flagged)
    ensures Total(g, RevealedMine) > 0
  {
    forall q | InBounds(q) && !At(g, q).isMine
      ensures At(g, q).neighborMines == NeighbourMines(g, q)
    {
      SameMinesSameCounts(g, g0, q);
    }
    CountAgree(g, g0, AllCells(), Mined);
    CountAgree(g, g0, AllCells(), Flagged);
    AllCellsFacts();
    CountZero(g, AllCells(), RevealedMine);
  }

  /** A flood fill keeps mines, flags and counts, and shows a mine only where one was shown. */
  lemma FillFacts(g0: Board, g: Board)
    requires WellFormed(g0) && RevealsOnly(g0, g) && SafeReveals(g0, g)
    ensures WellFormed(g)
    ensures Total(g, Mined) == Total(g0, Mined) && Total(g, Flagged) == Total(g0, Flagged)
    ensures Total(g, RevealedMine) == Total(g0, RevealedMine)
  {
    forall q | InBounds(q) && !At(g, q).isMine
      ensures At(g, q).neighborMines == NeighbourMines(g, q)
    {
      SameMinesSameCounts(g, g0, q);
    }
    CountAgree(g, g0, AllCells(), Mined);
    CountAgree(g, g0, AllCells(), Flagged);
    forall q | q in AllCells() && InBounds(q)
      ensures Holds(RevealedMine, At(g, q)) == Holds(RevealedMine, At(g0, q))
    {
      if !At(g0, q).isRevealed && At(g, q).isRevealed {
        assert NewlyRevealed(g0, g, q);
      }
    }
    CountAgree(g, g0, AllCells(), RevealedMine);
  }

  /** Flipping the flag at `p` moves the flagged total by one and keeps every other count. */
  lemma FlagFacts(g: Board, p: Pos)
    requires WellFormed(g) && InBounds(p)
    ensures var h := Update(g, p, At(g, p).(isFlagged := !At(g, p).isFlagged));
      WellFormed(h) &&
      Total(h, Mined) == Total(g, Mined) &&
      Total(h, RevealedMine) == Total(g, RevealedMine) &&
      Total(h, HiddenSafe) == Total(g, HiddenSafe) &&
      Total(h, Flagged) as int == Total(g, Flagged) + (if At(h, p).isFlagged then 1 else -1)
  {
    var h := Update(g, p, At(g, p).(isFlagged := !At(g, p).isFlagged));
    forall q | InBounds(q) && !At(h, q).isMine
      ensures At(h, q).neighborMines == NeighbourMines(h, q)
    {
      SameMinesSameCounts(g, h, q);
    }
    CountAgree(g, h, AllCells(), Mined);
    CountAgree(g, h, AllCells(), RevealedMine);
    CountAgree(g, h, AllCells(), HiddenSafe);
    AllCellsFacts();
    CountUpdate(g, AllCells(), p, At(g, p).(isFlagged := !At(g, p).isFlagged), Flagged);
  }

  // ---------------------------------------------------------------------------------------------
  // The component

  /** The component's state: `grid`, `gameStatus` and `flagCount` (the timer is not modelled). */
  class Game {
    var grid: Board
    var status: Status
    var flagCount: int

    /**
     * Exactly `MineCount` mines carrying correct counts; the flag counter shows the mines minus
     * the flags placed; the game is lost exactly when a mine is shown, and won exactly when no
     * mine is shown and no safe cell is hidden.
     */
    ghost predicate Valid()
      reads this
    {
      WellFormed(grid) && Total(grid, Mined) == MineCount &&
      flagCount + Total(grid, Flagged) == MineCount &&
      (status == Lost <==> Total(grid, RevealedMine) > 0) &&
      (status == Won <==> Total(grid, RevealedMine) == 0 && Total(grid, HiddenSafe) == 0)
    }

    /** Mounting runs `resetGame`. */
    constructor (draws: seq<Pos>)
      requires forall d :: d in draws ==> InBounds(d)
      requires |Drawn(draws)| >= MineCount
      ensures Valid()
      ensures Dealt(grid, draws) && status == Playing && flagCount == MineCount
    {
      var g := InitializeGrid(draws);
      grid := g;
      status := Playing;
      flagCount := MineCount;
      new;
      DealtFacts(grid, draws);
    }

    /** `resetGame`: a newly dealt board, playing, every flag back in the counter. */
    method ResetGame(draws: seq<Pos>)
      requires forall d :: d in draws ==> InBounds(d)
      requires |Drawn(draws)| >= MineCount
      modifies this
      ensures Valid()
      ensures Dealt(grid, draws) && status == Playing && flagCount == MineCount
    {
      grid := InitializeGrid(draws);
      status := Playing;
      flagCount := MineCount;
      DealtFacts(grid, draws);
    }

    /**
     * `revealCell`: nothing unless playing on a hidden, unflagged cell; a mine shows every mine
     * and loses; a safe cell starts the flood fill, after which the game is won if all 85 safe
     * cells are revealed.
     */
    method RevealCell(row: int, col: int)
      requires Valid() && InBounds(Pos(row, col))
      modifies this
      ensures Valid()
      ensures flagCount == old(flagCount)
      ensures var p := Pos(row, col);
        if old(status) != Playing || At(old(grid), p).isRevealed || At(old(grid), p).isFlagged then
          grid == old(grid) && status == old(status)
        else if At(old(grid), p).isMine then
          MinesShown(old(grid), grid) && status == Lost
        else
          RevealsOnly(old(grid), grid) && SafeReveals(old(grid), grid) && At(grid, p).isRevealed &&
          Spread(old(grid), grid, p) && Closed(old(grid), grid) &&
          status == (if Total(grid, RevealedSafe) == SafeCells then Won else Playing)
    {
      var p := Pos(row, col);
      if status != Playing || At(grid, p).isRevealed || At(grid, p).isFlagged {
        return;
      }
      if At(grid, p).isMine {
        var g := RevealMines(grid);
        LossFacts(grid, g, p);
        status := Lost;
        grid := g;
      } else {
        var g := FloodFill(grid, p);
        FillFacts(grid, g);
        var revealedCount := CountRevealedSafe(g);
        WinTest(g);
        if revealedCount == SafeCells {
          status := Won;
        }
        grid := g;
      }
    }

    /** `toggleFlag`: on a hidden cell while playing, flip its flag and move the counter the other way. */
    method ToggleFlag(row: int, col: int)
      requires Valid() && InBounds(Pos(row, col))
      modifies this
      ensures Valid()
      ensures status == old(status)
      ensures var p := Pos(row, col);
        if old(status) != Playing || At(old(grid), p).isRevealed then
          grid == old(grid) && flagCount == old(flagCount)
        else
          grid == Update(old(grid), p, At(old(grid), p).(isFlagged := !At(old(grid), p).isFlagged)) &&
          flagCount == old(flagCount) + (if At(grid, p).isFlagged then -1 else 1)
    {
      var p := Pos(row, col);
      if status != Playing || At(grid, p).isRevealed {
        return;
      }
      var g := Update(grid, p, At(grid, p).(isFlagged := !At(grid, p).isFlagged));
      FlagFacts(grid, p);
      flagCount := if At(g, p).isFlagged then flagCount - 1 else flagCount + 1;
      grid := g;
    }
  }
}
