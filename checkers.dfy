/**
 * Checkers on an 8x8 board. Red starts at the bottom and moves up, black starts at the top and
 * moves down, and kings move both ways. Each piece generates diagonal steps and jumps; the click
 * handler only plays jumps, a jumping piece that can jump again keeps the turn, and a side with
 * no pieces or no possible step or jump loses.
 */
module Checkers {
  import opened Common

  const Size := 8

  /** The number of pieces each side starts with. */
  const PiecesPerSide := 12

  datatype Color = Red | Black

  datatype Piece = Piece(color: Color, isKing: bool)

  /** Rows of squares; `None` is an empty square. */
  type Board = seq<seq<Option<Piece>>>

  datatype Square = Square(row: int, col: int)

  /** `gameStatus`: `playing`, `red_wins` or `black_wins`. */
  datatype Status = Playing | RedWins | BlackWins

  /** A diagonal direction. */
  datatype Dir = Dir(dRow: int, dCol: int)

  /** A generated move: its landing square, and for a capture the jumped square. */
  datatype Move = Move(to: Square, captured: Option<Square>)

  /** A `getAllCaptures` entry: a piece's square and its captures. */
  datatype Entry = Entry(at: Square, captures: seq<Move>)

  function Opponent(c: Color): Color
  {
    if c == Red then Black else Red
  }

  predicate IsBoard(b: Board)
  {
    |b| == Size && forall r :: 0 <= r < Size ==> |b[r]| == Size
  }

  /** `isValidSquare`. */
  predicate IsValidSquare(s: Square)
  {
    0 <= s.row < Size && 0 <= s.col < Size
  }

  function At(b: Board, s: Square): Option<Piece>
    requires IsBoard(b) && IsValidSquare(s)
  {
    b[s.row][s.col]
  }

  function Shift(s: Square, d: Dir): Square
  {
    Square(s.row + d.dRow, s.col + d.dCol)
  }

  // ---------------------------------------------------------------------------------------------
  // Move generation

  /** The directions a piece may move in, in the order the engine tries them. */
  function Directions(p: Piece): seq<Dir>
  {
    if p.isKing then [Dir(-1, -1), Dir(-1, 1), Dir(1, -1), Dir(1, 1)]
    else if p.color == Red then [Dir(-1, -1), Dir(-1, 1)]
    else [Dir(1, -1), Dir(1, 1)]
  }

  /** The row direction of a piece that is not a king: red up, black down. */
  function Forward(c: Color): int
  {
    if c == Red then -1 else 1
  }

  /** A diagonal unit direction the piece may take. */
  predicate Allowed(p: Piece, d: Dir)
  {
    (d.dRow == -1 || d.dRow == 1) && (d.dCol == -1 || d.dCol == 1) &&
    (p.isKing || d.dRow == Forward(p.color))
  }

  /** Red steps up and black down; a king takes all four diagonals. */
  lemma DirectionsAllowed(p: Piece, d: Dir)
    ensures d in Directions(p) <==> Allowed(p, d)
  {
  }

  /** The plain step from `s` in direction `d`, when its square is on the board and empty. */
  function StepIn(b: Board, s: Square, d: Dir): seq<Move>
    requires IsBoard(b)
  {
    var t := Shift(s, d);
    if IsValidSquare(t) && At(b, t).None? then [Move(t, None)] else []
  }

  /**
   * The jump from `s` in direction `d`: the adjacent square holds a piece of another colour than
   * `p` and the square beyond it is on the board and empty.
   */
  function JumpIn(b: Board, s: Square, p: Piece, d: Dir): seq<Move>
    requires IsBoard(b)
  {
    var t := Shift(s, d);
    var j := Shift(t, d);
    if IsValidSquare(t) && At(b, t).Some? && At(b, t).value.color != p.color &&
       IsValidSquare(j) && At(b, j).None?
    then [Move(j, Some(t))]
    else []
  }

  /** The steps found in the first `n` directions of `ds`, in order. */
  function StepsUpTo(b: Board, s: Square, ds: seq<Dir>, n: nat): seq<Move>
    requires IsBoard(b) && n <= |ds|
  {
    if n == 0 then [] else StepsUpTo(b, s, ds, n - 1) + StepIn(b, s, ds[n - 1])
  }

  /** The jumps found in the first `n` directions of `ds`, in order. */
  function JumpsUpTo(b: Board, s: Square, p: Piece, ds: seq<Dir>, n: nat): seq<Move>
    requires IsBoard(b) && n <= |ds|
  {
    if n == 0 then [] else JumpsUpTo(b, s, p, ds, n - 1) + JumpIn(b, s, p, ds[n - 1])
  }

  /** The plain moves of `p` standing on `s`. */
  function Steps(b: Board, s: Square, p: Piece): seq<Move>
    requires IsBoard(b)
  {
    StepsUpTo(b, s, Directions(p), |Directions(p)|)
  }

  /** The captures of `p` standing on `s`. */
  function Jumps(b: Board, s: Square, p: Piece): seq<Move>
    requires IsBoard(b)
  {
    JumpsUpTo(b, s, p, Directions(p), |Directions(p)|)
  }

  /** A legal plain move, stated without the engine's direction lists. */
  predicate IsStep(b: Board, s: Square, p: Piece, m: Move)
    requires IsBoard(b)
  {
    m.captured.None? && Allowed(p, Dir(m.to.row - s.row, m.to.col - s.col)) &&
    IsValidSquare(m.to) && At(b, m.to).None?
  }

  /**
   * A legal capture: the jumped square is a diagonal neighbour in an allowed direction holding a
   * piece of another colour, and the landing square beyond it is on the board and empty.
   */
  predicate IsJump(b: Board, s: Square, p: Piece, m: Move)
    requires IsBoard(b)
  {
    m.captured.Some? &&
    var c := m.captured.value;
    Allowed(p, Dir(c.row - s.row, c.col - s.col)) &&
    IsValidSquare(c) && At(b, c).Some? && At(b, c).value.color != p.color &&
    m.to == Square(2 * c.row - s.row, 2 * c.col - s.col) &&
    IsValidSquare(m.to) && At(b, m.to).None?
  }

  /** A step in an allowed direction is found exactly when it is legal in that direction. */
  lemma StepInExact(b: Board, s: Square, p: Piece, d: Dir, m: Move)
    requires IsBoard(b) && Allowed(p, d)
    ensures m in StepIn(b, s, d) <==> IsStep(b, s, p, m) && m.to == Shift(s, d)
  {
    var t := Shift(s, d);
    assert Dir(t.row - s.row, t.col - s.col) == d;
    if m in StepIn(b, s, d) {
      assert m == Move(t, None);
    }
  }

  /** A jump in an allowed direction is found exactly when it is legal in that direction. */
  lemma JumpInExact(b: Board, s: Square, p: Piece, d: Dir, m: Move)
    requires IsBoard(b) && Allowed(p, d)
    ensures m in JumpIn(b, s, p, d) <==> IsJump(b, s, p, m) && m.captured.value == Shift(s, d)
  {
    var t := Shift(s, d);
    var j := Shift(t, d);
    assert j == Square(2 * t.row - s.row, 2 * t.col - s.col);
    assert Dir(t.row - s.row, t.col - s.col) == d;
    if m in JumpIn(b, s, p, d) {
      assert m == Move(j, Some(t));
    }
  }

  /** The plain moves found in the first `n` directions are those found in one of them. */
  lemma {:induction false} StepsUpToExact(b: Board, s: Square, ds: seq<Dir>, n: nat, m: Move)
    requires IsBoard(b) && n <= |ds|
    ensures m in StepsUpTo(b, s, ds, n) <==> exists k :: 0 <= k < n && m in StepIn(b, s, ds[k])
  {
    if n > 0 {
      StepsUpToExact(b, s, ds, n - 1, m);
      if m in StepIn(b, s, ds[n - 1]) {
        assert m in StepsUpTo(b, s, ds, n);
      }
    }
  }

  /** The captures found in the first `n` directions are those found in one of them. */
  lemma {:induction false} JumpsUpToExact(b: Board, s: Square, p: Piece, ds: seq<Dir>, n: nat, m: Move)
    requires IsBoard(b) && n <= |ds|
    ensures m in JumpsUpTo(b, s, p, ds, n) <==> exists k :: 0 <= k < n && m in JumpIn(b, s, p, ds[k])
  {
    if n > 0 {
      JumpsUpToExact(b, s, p, ds, n - 1, m);
      if m in JumpIn(b, s, p, ds[n - 1]) {
        assert m in JumpsUpTo(b, s, p, ds, n);
      }
    }
  }

  /** The generated plain moves are exactly the legal steps. */
  lemma StepsExact(b: Board, s: Square, p: Piece, m: Move)
    requires IsBoard(b)
    ensures m in Steps(b, s, p) <==> IsStep(b, s, p, m)
  {
    var ds := Directions(p);
    StepsUpToExact(b, s, ds, |ds|, m);
    if m in Steps(b, s, p) {
      var k :| 0 <= k < |ds| && m in StepIn(b, s, ds[k]);
      DirectionsAllowed(p, ds[k]);
      StepInExact(b, s, p, ds[k], m);
    }
    if IsStep(b, s, p, m) {
      var d := Dir(m.to.row - s.row, m.to.col - s.col);
      DirectionsAllowed(p, d);
      var k :| 0 <= k < |ds| && ds[k] == d;
      StepInExact(b, s, p, d, m);
    }
  }

  /** The generated captures are exactly the legal jumps, each naming the square it jumps. */
  lemma JumpsExact(b: Board, s: Square, p: Piece, m: Move)
    requires IsBoard(b)
    ensures m in Jumps(b, s, p) <==> IsJump(b, s, p, m)
  {
    var ds := Directions(p);
    JumpsUpToExact(b, s, p, ds, |ds|, m);
    if m in Jumps(b, s, p) {
      var k :| 0 <= k < |ds| && m in JumpIn(b, s, p, ds[k]);
      DirectionsAllowed(p, ds[k]);
      JumpInExact(b, s, p, ds[k], m);
    }
    if IsJump(b, s, p, m) {
      var d := Dir(m.captured.value.row - s.row, m.captured.value.col - s.col);
      DirectionsAllowed(p, d);
      var k :| 0 <= k < |ds| && ds[k] == d;
      JumpInExact(b, s, p, d, m);
    }
  }

  /**
   * `getValidMoves`. With `checkCaptures` set (the default) no plain move is ever recorded, so
   * `moves` is empty; without it `moves` holds the steps. `captures` holds the jumps either way.
   * An empty square yields nothing.
   */
  method GetValidMoves(b: Board, s: Square, piece: Option<Piece>, checkCaptures: bool)
    returns (moves: seq<Move>, captures: seq<Move>)
    requires IsBoard(b)
    ensures piece.None? ==> moves == [] && captures == []
    ensures piece.Some? ==>
      moves == (if checkCaptures then [] else Steps(b, s, piece.value)) &&
      captures == Jumps(b, s, piece.value)
  {
    moves := [];
    captures := [];
    if piece.None? {
      return;
    }
    var p := piece.value;
    var ds := Directions(p);
    var i := 0;
    while i < |ds|
      invariant 0 <= i <= |ds|
      invariant moves == (if checkCaptures then [] else StepsUpTo(b, s, ds, i))
      invariant captures == JumpsUpTo(b, s, p, ds, i)
    {
      var step, jump := TryDirection(b, s, p, ds[i], checkCaptures);
      moves := moves + step;
      captures := captures + jump;
      i := i + 1;
    }
    moves := if checkCaptures && |captures| > 0 then [] else moves;
  }

  /** One pass of `getValidMoves`' direction loop: what it records for direction `d`. */
  method TryDirection(b: Board, s: Square, p: Piece, d: Dir, checkCaptures: bool)
    returns (step: seq<Move>, jump: seq<Move>)
    requires IsBoard(b)
    ensures step == (if checkCaptures then [] else StepIn(b, s, d))
    ensures jump == JumpIn(b, s, p, d)
  {
    step, jump := [], [];
    var t := Shift(s, d);
    if IsValidSquare(t) {
      if b[t.row][t.col].None? {
        if !checkCaptures {
          step := [Move(t, None)];
        }
      } else if b[t.row][t.col].value.color != p.color {
        var j := Shift(t, d);
        if IsValidSquare(j) && b[j.row][j.col].None? {
          jump := [Move(j, Some(t))];
        }
      }
    }
  }

  /** `Array.find` on a move list by landing square: the first move landing on `s`. */
  function FindMove(ms: seq<Move>, s: Square): (r: Option<Move>)
    ensures r.Some? ==> r.value in ms && r.value.to == s
    ensures r.None? <==> forall k :: 0 <= k < |ms| ==> ms[k].to != s
    ensures r.Some? ==>
      exists k :: 0 <= k < |ms| && ms[k] == r.value && (forall k' :: 0 <= k' < k ==> ms[k'].to != s)
  {
    if ms == [] then None
    else if ms[0].to == s then Some(ms[0])
    else
      var r := FindMove(ms[1..], s);
      assert forall k :: 1 <= k < |ms| ==> ms[k] == ms[1..][k - 1];
      r
  }

  // ---------------------------------------------------------------------------------------------
  // Boards and piece counts

  /** The board with square `s` set to `o`. */
  function Place(b: Board, s: Square, o: Option<Piece>): (r: Board)
    requires IsBoard(b) && IsValidSquare(s)
    ensures IsBoard(r) && At(r, s) == o
    ensures forall t :: IsValidSquare(t) && t != s ==> At(r, t) == At(b, t)
  {
    var row: seq<Option<Piece>> := b[s.row][s.col := o];
    b[s.row := row]
  }

  /** A board of empty squares. */
  function EmptyBoard(): (r: Board)
    ensures IsBoard(r) && forall s :: IsValidSquare(s) ==> At(r, s).None?
  {
    seq(Size, _ => seq(Size, _ => None))
  }

  /** A dark square: the only kind the pieces stand on. */
  predicate IsDark(s: Square)
  {
    (s.row + s.col) % 2 == 1
  }

  /** The starting contents of a square: black men on the dark squares of rows 0-2, red men on
      those of rows 5-7. */
  function StartPiece(s: Square): Option<Piece>
  {
    if IsDark(s) && s.row < 3 then Some(Piece(Black, false))
    else if IsDark(s) && 5 <= s.row then Some(Piece(Red, false))
    else None
  }

  ghost predicate IsStartBoard(b: Board)
  {
    IsBoard(b) && forall s :: IsValidSquare(s) ==> At(b, s) == StartPiece(s)
  }

  /** `b` with `color` men written on the dark squares of rows `row` (inclusive) to `hi`, up to
      column `col` of row `row`. */
  ghost predicate FilledTo(b0: Board, b: Board, lo: int, hi: int, color: Color, row: int, col: int)
    requires IsBoard(b0) && IsBoard(b)
  {
    forall s :: IsValidSquare(s) ==>
      At(b, s) ==
        if lo <= s.row && (s.row < row || (s.row == row && s.col < col)) && IsDark(s)
        then Some(Piece(color, false))
        else At(b0, s)
  }

  /** One pass of the engine's set-up loops: `color` men on the dark squares of rows `lo` to
      `hi - 1`, everything else as it was. */
  method FillRows(b0: Board, lo: int, hi: int, color: Color) returns (b: Board)
    requires IsBoard(b0) && 0 <= lo <= hi <= Size
    ensures IsBoard(b)
    ensures forall s :: IsValidSquare(s) ==>
      At(b, s) == if lo <= s.row < hi && IsDark(s) then Some(Piece(color, false)) else At(b0, s)
  {
    b := b0;
    var row := lo;
    while row < hi
      invariant lo <= row <= hi && IsBoard(b)
      invariant FilledTo(b0, b, lo, hi, color, row, 0)
    {
      var col := 0;
      while col < Size
        invariant 0 <= col <= Size && IsBoard(b)
        invariant FilledTo(b0, b, lo, hi, color, row, col)
      {
        if (row + col) % 2 == 1 {
          b := Place(b, Square(row, col), Some(Piece(color, false)));
        }
        col := col + 1;
      }
      row := row + 1;
    }
  }

  /** The initial `board` (the same code is in the state initialiser and in `resetGame`). */
  method NewBoard() returns (b: Board)
    ensures IsStartBoard(b)
  {
    b := EmptyBoard();
    b := FillRows(b, 0, 3, Black);
    b := FillRows(b, 5, Size, Red);
  }

  /** 1 when the square holds a piece of colour `c`. */
  function Owns(o: Option<Piece>, c: Color): nat
  {
    if o.Some? && o.value.color == c then 1 else 0
  }

  /** The pieces of colour `c` among the first `n` squares of a row. */
  function RowCount(row: seq<Option<Piece>>, c: Color, n: nat): nat
    requires n <= |row|
  {
    if n == 0 then 0 else RowCount(row, c, n - 1) + Owns(row[n - 1], c)
  }

  /** The pieces of colour `c` in the first `n` rows. */
  function BoardCount(b: Board, c: Color, n: nat): nat
    requires IsBoard(b) && n <= Size
  {
    if n == 0 then 0 else BoardCount(b, c, n - 1) + RowCount(b[n - 1], c, |b[n - 1]|)
  }

  /** The pieces of colour `c` on the board. */
  function ColorCount(b: Board, c: Color): nat
    requires IsBoard(b)
  {
    BoardCount(b, c, |b|)
  }

  lemma {:induction false} RowCountUpdate(row: seq<Option<Piece>>, k: nat, o: Option<Piece>, c: Color, n: nat)
    requires k < |row| && n <= |row|
    ensures RowCount(row[k := o], c, n) + (if k < n then Owns(row[k], c) else 0) ==
            RowCount(row, c, n) + (if k < n then Owns(o, c) else 0)
  {
    if n > 0 {
      RowCountUpdate(row, k, o, c, n - 1);
    }
  }

  lemma {:induction false} BoardCountUpdate(b: Board, r: nat, row: seq<Option<Piece>>, c: Color, n: nat)
    requires IsBoard(b) && r < Size && |row| == Size && n <= Size
    ensures BoardCount(b[r := row], c, n) + (if r < n then RowCount(b[r], c, |b[r]|) else 0) ==
            BoardCount(b, c, n) + (if r < n then RowCount(row, c, |row|) else 0)
  {
    if n > 0 {
      BoardCountUpdate(b, r, row, c, n - 1);
    }
  }

  /** Setting a square swaps the piece it held for the new one in the counts. */
  lemma PlaceCount(b: Board, s: Square, o: Option<Piece>, c: Color)
    requires IsBoard(b) && IsValidSquare(s)
    ensures ColorCount(Place(b, s, o), c) + Owns(At(b, s), c) == ColorCount(b, c) + Owns(o, c)
  {
    RowCountUpdate(b[s.row], s.col, o, c, |b[s.row]|);
    BoardCountUpdate(b, s.row, b[s.row][s.col := o], c, |b|);
  }

  /** A piece on the board is counted. */
  lemma OwnedCounted(b: Board, s: Square, c: Color)
    requires IsBoard(b) && IsValidSquare(s) && Owns(At(b, s), c) == 1
    ensures ColorCount(b, c) >= 1
  {
    PlaceCount(b, s, None, c);
  }

  /** Dark squares among the first `n` columns of row `r`. */
  function DarkColumns(r: int, n: nat): nat
  {
    if r % 2 == 0 then n / 2 else (n + 1) / 2
  }

  lemma DarkColumnsStep(r: int, n: nat)
    requires n > 0
    ensures DarkColumns(r, n) == DarkColumns(r, n - 1) + (if (r + n - 1) % 2 == 1 then 1 else 0)
  {
  }

  lemma {:induction false} StartRowCount(b: Board, r: int, c: Color, n: nat)
    requires IsStartBoard(b) && 0 <= r < Size && n <= Size
    ensures RowCount(b[r], c, n) ==
      if (c == Black && r < 3) || (c == Red && 5 <= r) then DarkColumns(r, n) else 0
  {
    if n > 0 {
      StartRowCount(b, r, c, n - 1);
      DarkColumnsStep(r, n);
      assert b[r][n - 1] == StartPiece(Square(r, n - 1));
    }
  }

  lemma {:induction false} StartBoardCount(b: Board, n: nat)
    requires IsStartBoard(b) && n <= Size
    ensures BoardCount(b, Black, n) == 4 * (if n < 3 then n else 3)
    ensures BoardCount(b, Red, n) == 4 * (if n < 5 then 0 else n - 5)
  {
    if n > 0 {
      StartBoardCount(b, n - 1);
      StartRowCount(b, n - 1, Black, |b[n - 1]|);
      StartRowCount(b, n - 1, Red, |b[n - 1]|);
    }
  }

  /**
   * The initial board holds twelve black men and twelve red men, none crowned, all on dark
   * squares, black on rows 0-2 and red on rows 5-7.
   */
  lemma StartBoardFacts(b: Board)
    requires IsStartBoard(b)
    ensures ColorCount(b, Black) == PiecesPerSide && ColorCount(b, Red) == PiecesPerSide
    ensures forall s :: IsValidSquare(s) && At(b, s).Some? ==>
      IsDark(s) && !At(b, s).value.isKing &&
      (At(b, s).value.color == Black <==> s.row < 3) &&
      (At(b, s).value.color == Red <==> 5 <= s.row)
  {
    StartBoardCount(b, |b|);
  }

  // ---------------------------------------------------------------------------------------------
  // Making a move

  /** Whether a man landing on `to` is crowned: red on row 0, black on row 7. */
  predicate Crowns(p: Piece, to: Square)
  {
    !p.isKing && ((p.color == Red && to.row == 0) || (p.color == Black && to.row == Size - 1))
  }

  /**
   * The board `makeMove` stores: the piece goes from `from` to `to`, the jumped square (if any) is
   * emptied, and a man reaching the far row is crowned. A king stays a king and the colour is
   * kept; no other square changes. `from`, `to` and the jumped square are distinct, and the jumped
   * square holds a piece, as the engine reads its colour.
   */
  function MakeMove(b: Board, from: Square, to: Square, captured: Option<Square>): (r: Board)
    requires IsBoard(b) && IsValidSquare(from) && IsValidSquare(to) && from != to
    requires At(b, from).Some?
    requires captured.Some? ==>
      IsValidSquare(captured.value) && captured.value != from && captured.value != to &&
      At(b, captured.value).Some?
    ensures IsBoard(r) && At(r, from).None?
    ensures var p := At(b, from).value;
      At(r, to).Some? && At(r, to).value.color == p.color &&
      (At(r, to).value.isKing <==> p.isKing || Crowns(p, to))
    ensures captured.Some? ==> At(r, captured.value).None?
    ensures forall t :: IsValidSquare(t) && t != from && t != to && Some(t) != captured ==>
      At(r, t) == At(b, t)
  {
    var p := At(b, from).value;
    var b1 := Place(Place(b, to, Some(p)), from, None);
    var b2 := if captured.Some? then Place(b1, captured.value, None) else b1;
    if Crowns(p, to) then Place(b2, to, Some(Piece(p.color, true))) else b2
  }

  /** The board work of `makeMove` on a copy of `b`, and the piece on the jumped square. */
  method CopyAndMove(b: Board, from: Square, to: Square, captured: Option<Square>)
    returns (newBoard: Board, capturedPiece: Option<Piece>)
    requires IsBoard(b) && IsValidSquare(from) && IsValidSquare(to) && from != to
    requires At(b, from).Some?
    requires captured.Some? ==>
      IsValidSquare(captured.value) && captured.value != from && captured.value != to &&
      At(b, captured.value).Some?
    ensures newBoard == MakeMove(b, from, to, captured)
    ensures capturedPiece == if captured.Some? then At(b, captured.value) else None
  {
    var piece := b[from.row][from.col].value;
    newBoard := Place(b, to, Some(piece));
    newBoard := Place(newBoard, from, None);
    capturedPiece := None;
    if captured.Some? {
      var c := captured.value;
      capturedPiece := newBoard[c.row][c.col];
      newBoard := Place(newBoard, c, None);
    }
    if !piece.isKing {
      if (piece.color == Red && to.row == 0) || (piece.color == Black && to.row == Size - 1) {
        newBoard := Place(newBoard, to, Some(Piece(piece.color, true)));
      }
    }
  }

  /** A generated move: a legal step or a legal jump of the piece on `from`. */
  predicate Legal(b: Board, from: Square, m: Move)
    requires IsBoard(b)
  {
    IsValidSquare(from) && At(b, from).Some? &&
    (IsStep(b, from, At(b, from).value, m) || IsJump(b, from, At(b, from).value, m))
  }

  /** A legal move satisfies `MakeMove`'s demands. */
  lemma LegalShape(b: Board, from: Square, m: Move)
    requires IsBoard(b) && Legal(b, from, m)
    ensures IsValidSquare(m.to) && m.to != from && At(b, m.to).None?
    ensures m.captured.Some? ==>
      IsValidSquare(m.captured.value) && m.captured.value != from && m.captured.value != m.to &&
      At(b, m.captured.value).Some? && At(b, m.captured.value).value.color == Opponent(At(b, from).value.color)
    ensures IsDark(m.to) <==> IsDark(from)
  {
  }

  /** Every piece stands on a dark square. */
  ghost predicate AllDark(b: Board)
    requires IsBoard(b)
  {
    forall s :: IsValidSquare(s) && At(b, s).Some? ==> IsDark(s)
  }

  /** Diagonal moves keep the pieces on the dark squares. */
  lemma MoveStaysDark(b: Board, from: Square, m: Move)
    requires IsBoard(b) && Legal(b, from, m) && AllDark(b)
    ensures AllDark(MakeMove(b, from, m.to, m.captured))
  {
    LegalShape(b, from, m);
  }

  /**
   * A move keeps every piece of `c` except a jumped one: the moving piece keeps its colour, the
   * landing square was empty, and the jumped piece leaves the board.
   */
  lemma MakeMoveCount(b: Board, from: Square, m: Move, c: Color)
    requires IsBoard(b) && Legal(b, from, m)
    ensures ColorCount(MakeMove(b, from, m.to, m.captured), c) +
      (if m.captured.Some? then Owns(At(b, m.captured.value), c) else 0) == ColorCount(b, c)
  {
    LegalShape(b, from, m);
    var p := At(b, from).value;
    var b0 := Place(b, m.to, Some(p));
    var b1 := Place(b0, from, None);
    PlaceCount(b, m.to, Some(p), c);
    PlaceCount(b0, from, None, c);
    var b2 := b1;
    if m.captured.Some? {
      b2 := Place(b1, m.captured.value, None);
      PlaceCount(b1, m.captured.value, None, c);
    }
    if Crowns(p, m.to) {
      PlaceCount(b2, m.to, Some(Piece(p.color, true)), c);
    }
  }

  // ---------------------------------------------------------------------------------------------
  // Whole-board searches

  /** The `getAllCaptures` entry for square `s`, if it holds a piece of `color` that can jump. */
  function EntryAt(b: Board, color: Color, s: Square): seq<Entry>
    requires IsBoard(b) && IsValidSquare(s)
  {
    var o := At(b, s);
    if o.Some? && o.value.color == color && |Jumps(b, s, o.value)| > 0
    then [Entry(s, Jumps(b, s, o.value))]
    else []
  }

  /** The entries of the first `n` squares of row `r`. */
  function RowEntries(b: Board, color: Color, r: int, n: nat): seq<Entry>
    requires IsBoard(b) && 0 <= r < Size && n <= Size
  {
    if n == 0 then [] else RowEntries(b, color, r, n - 1) + EntryAt(b, color, Square(r, n - 1))
  }

  /** The entries of the first `n` rows, in row-major order. */
  function BoardEntries(b: Board, color: Color, n: nat): seq<Entry>
    requires IsBoard(b) && n <= Size
  {
    if n == 0 then [] else BoardEntries(b, color, n - 1) + RowEntries(b, color, n - 1, |b[n - 1]|)
  }

  /** A piece of `color` on `s` with at least one capture. */
  predicate CanJump(b: Board, color: Color, s: Square)
    requires IsBoard(b)
  {
    IsValidSquare(s) && At(b, s).Some? && At(b, s).value.color == color &&
    |Jumps(b, s, At(b, s).value)| > 0
  }

  lemma EntryAtExact(b: Board, color: Color, s: Square, e: Entry)
    requires IsBoard(b) && IsValidSquare(s)
    ensures e in EntryAt(b, color, s) <==>
      e.at == s && CanJump(b, color, s) && e.captures == Jumps(b, s, At(b, s).value)
  {
  }

  lemma {:induction false} RowEntriesExact(b: Board, color: Color, r: int, n: nat, e: Entry)
    requires IsBoard(b) && 0 <= r < Size && n <= Size
    ensures e in RowEntries(b, color, r, n) <==>
      e.at.row == r && 0 <= e.at.col < n && CanJump(b, color, e.at) &&
      e.captures == Jumps(b, e.at, At(b, e.at).value)
  {
    if n > 0 {
      RowEntriesExact(b, color, r, n - 1, e);
      EntryAtExact(b, color, Square(r, n - 1), e);
    }
  }

  lemma {:induction false} BoardEntriesExact(b: Board, color: Color, n: nat, e: Entry)
    requires IsBoard(b) && n <= Size
    ensures e in BoardEntries(b, color, n) <==>
      0 <= e.at.row < n && CanJump(b, color, e.at) && e.captures == Jumps(b, e.at, At(b, e.at).value)
  {
    if n > 0 {
      BoardEntriesExact(b, color, n - 1, e);
      RowEntriesExact(b, color, n - 1, |b[n - 1]|, e);
    }
  }

  /**
   * `getAllCaptures` lists exactly the pieces of `color` that can jump, each with its captures;
   * so the list is non-empty exactly when some piece of `color` can jump.
   */
  lemma AllCapturesExact(b: Board, color: Color)
    requires IsBoard(b)
    ensures forall e :: e in BoardEntries(b, color, |b|) <==>
      CanJump(b, color, e.at) && e.captures == Jumps(b, e.at, At(b, e.at).value)
    ensures |BoardEntries(b, color, |b|)| > 0 <==> exists s :: CanJump(b, color, s)
  {
    forall e ensures e in BoardEntries(b, color, |b|) <==>
      CanJump(b, color, e.at) && e.captures == Jumps(b, e.at, At(b, e.at).value)
    {
      BoardEntriesExact(b, color, |b|, e);
    }
    if s :| CanJump(b, color, s) {
      BoardEntriesExact(b, color, |b|, Entry(s, Jumps(b, s, At(b, s).value)));
    }
    if |BoardEntries(b, color, |b|)| > 0 {
      BoardEntriesExact(b, color, |b|, BoardEntries(b, color, |b|)[0]);
    }
  }

  /** One square of `getAllCaptures`' scan: its entry, if its piece is of `color` and can jump. */
  method ScanSquare(b: Board, color: Color, s: Square) returns (entry: seq<Entry>)
    requires IsBoard(b) && IsValidSquare(s)
    ensures entry == EntryAt(b, color, s)
  {
    entry := [];
    var piece := b[s.row][s.col];
    if piece.Some? && piece.value.color == color {
      var _, captures := GetValidMoves(b, s, piece, true);
      if |captures| > 0 {
        entry := [Entry(s, captures)];
      }
    }
  }

  /** One row of `getAllCaptures`' scan, left to right. */
  method ScanRow(b: Board, color: Color, row: int) returns (entries: seq<Entry>)
    requires IsBoard(b) && 0 <= row < Size
    ensures entries == RowEntries(b, color, row, |b[row]|)
  {
    entries := [];
    var col := 0;
    assert |b[row]| == Size;
    while col < |b[row]|
      invariant 0 <= col <= |b[row]| == Size
      invariant entries == RowEntries(b, color, row, col)
    {
      var entry := ScanSquare(b, color, Square(row, col));
      assert RowEntries(b, color, row, col + 1) == entries + entry;
      entries := entries + entry;
      col := col + 1;
    }
  }

  /** `getAllCaptures`: the board scanned row by row for pieces of `color` that can jump. */
  method GetAllCaptures(b: Board, color: Color) returns (all: seq<Entry>)
    requires IsBoard(b)
    ensures all == BoardEntries(b, color, |b|)
  {
    all := [];
    var row := 0;
    while row < Size
      invariant 0 <= row <= Size
      invariant all == BoardEntries(b, color, row)
    {
      var entries := ScanRow(b, color, row);
      all := all + entries;
      row := row + 1;
    }
  }

  /** A piece of `color` on `s` with at least one step or jump. */
  predicate Movable(b: Board, color: Color, s: Square)
    requires IsBoard(b)
  {
    IsValidSquare(s) && At(b, s).Some? && At(b, s).value.color == color &&
    (|Steps(b, s, At(b, s).value)| > 0 || |Jumps(b, s, At(b, s).value)| > 0)
  }

  /** Some piece of `color` can step or jump. */
  ghost predicate CanMove(b: Board, color: Color)
    requires IsBoard(b)
  {
    exists s :: Movable(b, color, s)
  }

  /** Some piece of `color` on the first `n` squares of row `r` can step or jump. */
  ghost predicate MovableInRow(b: Board, color: Color, r: int, n: int)
    requires IsBoard(b)
  {
    exists c :: 0 <= c < n && Movable(b, color, Square(r, c))
  }

  /** Some piece of `color` on the first `n` rows can step or jump. */
  ghost predicate MovableInRows(b: Board, color: Color, n: int)
    requires IsBoard(b)
  {
    exists s: Square :: s.row < n && Movable(b, color, s)
  }

  lemma MovableInRowStep(b: Board, color: Color, r: int, n: int)
    requires IsBoard(b) && 0 <= n
    ensures MovableInRow(b, color, r, n + 1) == (MovableInRow(b, color, r, n) || Movable(b, color, Square(r, n)))
  {
    if MovableInRow(b, color, r, n + 1) {
      var c :| 0 <= c < n + 1 && Movable(b, color, Square(r, c));
      if c < n {
        assert MovableInRow(b, color, r, n);
      }
    }
  }

  lemma MovableInRowsStep(b: Board, color: Color, n: int)
    requires IsBoard(b) && 0 <= n < Size
    ensures MovableInRows(b, color, n + 1) == (MovableInRows(b, color, n) || MovableInRow(b, color, n, |b[n]|))
  {
    if MovableInRows(b, color, n + 1) {
      var s: Square :| s.row < n + 1 && Movable(b, color, s);
      if s.row < n {
        assert MovableInRows(b, color, n);
      } else {
        assert MovableInRow(b, color, n, |b[n]|) by {
          assert Movable(b, color, Square(n, s.col));
        }
      }
    }
    if MovableInRow(b, color, n, |b[n]|) {
      var c :| 0 <= c < |b[n]| && Movable(b, color, Square(n, c));
      assert Square(n, c).row < n + 1;
    }
  }

  lemma MovableInAllRows(b: Board, color: Color)
    requires IsBoard(b)
    ensures MovableInRows(b, color, |b|) == CanMove(b, color)
  {
    if CanMove(b, color) {
      var s :| Movable(b, color, s);
      assert s.row < |b|;
    }
  }

  /**
   * The status `checkGameEnd` leaves: black wins when red has no piece or none that can step or
   * jump; otherwise red wins on the same test for black; otherwise the status is kept.
   */
  ghost function Verdict(b: Board, status: Status): Status
    requires IsBoard(b)
  {
    if ColorCount(b, Red) == 0 || !CanMove(b, Red) then BlackWins
    else if ColorCount(b, Black) == 0 || !CanMove(b, Black) then RedWins
    else status
  }

  /** A side without pieces cannot move, so only the movement test decides. */
  lemma VerdictByMovement(b: Board, status: Status)
    requires IsBoard(b)
    ensures Verdict(b, status) ==
      if !CanMove(b, Red) then BlackWins else if !CanMove(b, Black) then RedWins else status
  {
    if s :| Movable(b, Red, s) {
      OwnedCounted(b, s, Red);
    }
    if s :| Movable(b, Black, s) {
      OwnedCounted(b, s, Black);
    }
  }

  /** One square of `checkGameEnd`'s scan: which side's piece it holds and whether it can move. */
  method TallySquare(b: Board, s: Square) returns (red: nat, black: nat, redMoves: bool, blackMoves: bool)
    requires IsBoard(b) && IsValidSquare(s)
    ensures red == Owns(At(b, s), Red) && black == Owns(At(b, s), Black)
    ensures redMoves == Movable(b, Red, s) && blackMoves == Movable(b, Black, s)
  {
    red, black, redMoves, blackMoves := 0, 0, false, false;
    var piece := b[s.row][s.col];
    if piece.Some? {
      if piece.value.color == Red {
        red := 1;
        var moves, captures := GetValidMoves(b, s, piece, false);
        if |moves| > 0 || |captures| > 0 {
          redMoves := true;
        }
      } else {
        black := 1;
        var moves, captures := GetValidMoves(b, s, piece, false);
        if |moves| > 0 || |captures| > 0 {
          blackMoves := true;
        }
      }
    }
  }

  /** One row of `checkGameEnd`'s scan: the pieces of each side and whether any of them can move. */
  method TallyRow(b: Board, row: int) returns (red: nat, black: nat, redMoves: bool, blackMoves: bool)
    requires IsBoard(b) && 0 <= row < Size
    ensures red == RowCount(b[row], Red, |b[row]|) && black == RowCount(b[row], Black, |b[row]|)
    ensures redMoves == MovableInRow(b, Red, row, |b[row]|)
    ensures blackMoves == MovableInRow(b, Black, row, |b[row]|)
  {
    red, black, redMoves, blackMoves := 0, 0, false, false;
    var col := 0;
    while col < |b[row]|
      invariant 0 <= col <= |b[row]|
      invariant red == RowCount(b[row], Red, col) && black == RowCount(b[row], Black, col)
      invariant redMoves == MovableInRow(b, Red, row, col)
      invariant blackMoves == MovableInRow(b, Black, row, col)
    {
      var r, k, rm, km := TallySquare(b, Square(row, col));
      MovableInRowStep(b, Red, row, col);
      MovableInRowStep(b, Black, row, col);
      red, black := red + r, black + k;
      redMoves, blackMoves := redMoves || rm, blackMoves || km;
      col := col + 1;
    }
  }

  /** `checkGameEnd`: count and test every piece, then decide the status. */
  method CheckGameEnd(b: Board, status: Status) returns (r: Status)
    requires IsBoard(b)
    ensures r == Verdict(b, status)
  {
    var redPieces, blackPieces := 0, 0;
    var redCanMove, blackCanMove := false, false;
    var row := 0;
    while row < |b|
      invariant 0 <= row <= |b|
      invariant redPieces == BoardCount(b, Red, row) && blackPieces == BoardCount(b, Black, row)
      invariant redCanMove == MovableInRows(b, Red, row)
      invariant blackCanMove == MovableInRows(b, Black, row)
    {
      var red, black, redMoves, blackMoves := TallyRow(b, row);
      MovableInRowsStep(b, Red, row);
      MovableInRowsStep(b, Black, row);
      redPieces, blackPieces := redPieces + red, blackPieces + black;
      redCanMove, blackCanMove := redCanMove || redMoves, blackCanMove || blackMoves;
      row := row + 1;
    }
    MovableInAllRows(b, Red);
    MovableInAllRows(b, Black);
    if redPieces == 0 || !redCanMove {
      r := BlackWins;
    } else if blackPieces == 0 || !blackCanMove {
      r := RedWins;
    } else {
      r := status;
    }
  }

  lemma {:induction false} NoJumpsUpTo(b: Board, s: Square, p: Piece, ds: seq<Dir>, n: nat)
    requires IsBoard(b) && n <= |ds|
    requires forall k :: 0 <= k < n ==> |JumpIn(b, s, p, ds[k])| == 0
    ensures |JumpsUpTo(b, s, p, ds, n)| == 0
  {
    if n > 0 {
      NoJumpsUpTo(b, s, p, ds, n - 1);
    }
  }

  /** In the starting position no piece can jump: every diagonal neighbour ahead of a man is
      empty or of its own colour. */
  lemma StartNoJumps(b: Board, s: Square)
    requires IsStartBoard(b) && IsValidSquare(s) && At(b, s).Some?
    ensures |Jumps(b, s, At(b, s).value)| == 0
  {
    var p := At(b, s).value;
    var ds := Directions(p);
    forall k | 0 <= k < |ds|
      ensures |JumpIn(b, s, p, ds[k])| == 0
    {
      var t := Shift(s, ds[k]);
      if IsValidSquare(t) {
        assert At(b, t) == StartPiece(t);
      }
    }
    NoJumpsUpTo(b, s, p, ds, |ds|);
  }

  /** Both sides can move in the starting position, so `checkGameEnd` would keep the game going. */
  lemma StartCanMove(b: Board, status: Status)
    requires IsStartBoard(b)
    ensures CanMove(b, Red) && CanMove(b, Black) && Verdict(b, status) == status
  {
    var red := Square(5, 0);
    var black := Square(2, 1);
    assert At(b, red) == StartPiece(red) && At(b, Square(4, 1)) == StartPiece(Square(4, 1));
    assert At(b, black) == StartPiece(black) && At(b, Square(3, 0)) == StartPiece(Square(3, 0));
    StepsExact(b, red, At(b, red).value, Move(Square(4, 1), None));
    StepsExact(b, black, At(b, black).value, Move(Square(3, 0), None));
    assert Movable(b, Red, red);
    assert Movable(b, Black, black);
    StartBoardFacts(b);
  }

  // ---------------------------------------------------------------------------------------------
  // The component

  /** The component's fields: `board`, `selectedSquare`, `currentPlayer`, the red and black
      entries of `capturedPieces`, `mustCapture` and `gameStatus`. */
  datatype State = State(board: Board, selected: Option<Square>, player: Color,
                         capturedRed: nat, capturedBlack: nat, mustCapture: bool, status: Status)

  /**
   * The component's invariant. Every piece stands on a dark square; every piece of the initial
   * board is on the board or counted as captured under its colour; a selection holds a piece of
   * the side to move; a pending multi-jump always has its piece selected and the game running.
   */
  ghost predicate Inv(st: State)
  {
    IsBoard(st.board) && AllDark(st.board) &&
    ColorCount(st.board, Red) + st.capturedRed == PiecesPerSide &&
    ColorCount(st.board, Black) + st.capturedBlack == PiecesPerSide &&
    (st.selected.Some? ==>
      IsValidSquare(st.selected.value) && At(st.board, st.selected.value).Some? &&
      At(st.board, st.selected.value).value.color == st.player) &&
    (st.mustCapture ==> st.selected.Some? && st.status == Playing)
  }

  /** The state after `resetGame`, and the initial state. */
  ghost predicate IsStart(st: State)
  {
    IsStartBoard(st.board) && st.selected == None && st.player == Red &&
    st.capturedRed == 0 && st.capturedBlack == 0 && !st.mustCapture && st.status == Playing
  }

  lemma StartInv(st: State)
    requires IsStart(st)
    ensures Inv(st)
  {
    StartBoardFacts(st.board);
  }

  /**
   * `makeMove` with its follow-up. The board is `MakeMove`'s, and a jumped piece is counted under
   * its colour. If the move captured and the landed (perhaps just crowned) piece can jump again,
   * it stays selected, `mustCapture` is set and the turn is kept; otherwise the selection is
   * cleared, the turn passes and `checkGameEnd` decides the status.
   */
  ghost function Played(st: State, from: Square, m: Move): State
    requires IsBoard(st.board) && Legal(st.board, from, m)
  {
    FollowUp(Moved(st, from, m), m)
  }

  /**
   * After a capture whose landed piece can jump again the selection is pinned to it, the turn is
   * kept and `mustCapture` is set; otherwise the selection is cleared, the turn passes and
   * `checkGameEnd` decides the status.
   */
  lemma PlayedTurn(st: State, from: Square, m: Move)
    requires IsBoard(st.board) && Legal(st.board, from, m)
    ensures var r := Played(st, from, m);
      IsBoard(r.board) &&
      (r.mustCapture <==> m.captured.Some? && CanJump(r.board, At(st.board, from).value.color, m.to)) &&
      (r.mustCapture ==> r.selected == Some(m.to) && r.player == st.player && r.status == st.status) &&
      (!r.mustCapture ==>
        r.selected == None && r.player == Opponent(st.player) && r.status == Verdict(r.board, st.status))
  {
  }

  /** The board and captured counts after `makeMove`'s board work. */
  function Moved(st: State, from: Square, m: Move): (r: State)
    requires IsBoard(st.board) && Legal(st.board, from, m)
    ensures IsBoard(r.board) && IsValidSquare(m.to) && At(r.board, m.to).Some?
    ensures At(r.board, m.to).value.color == At(st.board, from).value.color
  {
    var cap := if m.captured.Some? then At(st.board, m.captured.value) else None;
    st.(board := MakeMove(st.board, from, m.to, m.captured),
        capturedRed := st.capturedRed + Owns(cap, Red),
        capturedBlack := st.capturedBlack + Owns(cap, Black))
  }

  /** `makeMove`'s follow-up on the landed piece: continue the multi-jump or end the turn. */
  ghost function FollowUp(st: State, m: Move): State
    requires IsBoard(st.board) && IsValidSquare(m.to) && At(st.board, m.to).Some?
  {
    if m.captured.Some? && |Jumps(st.board, m.to, At(st.board, m.to).value)| > 0
    then st.(selected := Some(m.to), mustCapture := true)
    else st.(selected := None, player := Opponent(st.player), mustCapture := false,
             status := Verdict(st.board, st.status))
  }

  /**
   * A move keeps the invariant. The jumped piece is the opponent's: its side's captured count
   * goes up by exactly one and the mover's stays.
   */
  lemma PlayedKeepsInv(st: State, from: Square, m: Move)
    requires Inv(st) && st.status == Playing && st.selected == Some(from) && Legal(st.board, from, m)
    ensures Inv(Played(st, from, m))
    ensures var r := Played(st, from, m);
      (st.player == Red ==> r.capturedRed == st.capturedRed) &&
      (st.player == Black ==> r.capturedBlack == st.capturedBlack) &&
      r.capturedRed + r.capturedBlack == st.capturedRed + st.capturedBlack + (if m.captured.Some? then 1 else 0)
  {
    LegalShape(st.board, from, m);
    MoveStaysDark(st.board, from, m);
    MakeMoveCount(st.board, from, m, Red);
    MakeMoveCount(st.board, from, m, Black);
  }

  /** A move leaves `MakeMove`'s board, whether or not the turn continues. */
  lemma PlayedBoard(st: State, from: Square, m: Move)
    requires IsBoard(st.board) && Legal(st.board, from, m)
    ensures Played(st, from, m).board == MakeMove(st.board, from, m.to, m.captured)
  {
  }

  /** The side to move has a piece on `s`. */
  predicate OwnPiece(st: State, s: Square)
    requires IsBoard(st.board) && IsValidSquare(s)
  {
    At(st.board, s).Some? && At(st.board, s).value.color == st.player
  }

  /**
   * `handleSquareClick` on square `s`. Nothing happens unless the game is being played. With a
   * selection: clicking it deselects and drops `mustCapture`; a landing square of one of the
   * selected piece's captures plays that capture; a piece of the side to move becomes the
   * selection unless a multi-jump is pending; anything else clears the selection and
   * `mustCapture`. Without a selection, a piece of the side to move is selected. The engine
   * searches `moves` followed by `captures`, but `moves` is empty here because the click handler
   * uses `checkCaptures`; so every move found is a capture and the capture-only guard never fires.
   */
  ghost function Clicked(st: State, s: Square): State
    requires Inv(st) && IsValidSquare(s)
  {
    if st.status != Playing then st
    else if st.selected.Some? then
      var from := st.selected.value;
      var piece := At(st.board, from).value;
      if from == s then st.(selected := None, mustCapture := false)
      else
        var found := FindMove(Jumps(st.board, from, piece), s);
        if found.Some? then
          JumpsExact(st.board, from, piece, found.value);
          Played(st, from, found.value)
        else if OwnPiece(st, s) && !st.mustCapture then st.(selected := Some(s))
        else st.(selected := None, mustCapture := false)
    else if OwnPiece(st, s) then st.(selected := Some(s))
    else st
  }

  /** A click keeps the invariant. */
  lemma ClickKeepsInv(st: State, s: Square)
    requires Inv(st) && IsValidSquare(s)
    ensures Inv(Clicked(st, s))
  {
    if st.status == Playing && st.selected.Some? && st.selected.value != s {
      var from := st.selected.value;
      var found := FindMove(Jumps(st.board, from, At(st.board, from).value), s);
      if found.Some? {
        JumpsExact(st.board, from, At(st.board, from).value, found.value);
        PlayedKeepsInv(st, from, found.value);
      }
    }
  }

  /** The selected piece has a legal capture landing on `s`. */
  ghost predicate CanJumpTo(st: State, s: Square)
    requires Inv(st) && st.selected.Some?
  {
    exists m :: IsJump(st.board, st.selected.value, At(st.board, st.selected.value).value, m) && m.to == s
  }

  /**
   * The board only ever changes by a capture: the selected piece jumps an opposing piece and
   * lands on the clicked square, and the opponent has one piece fewer.
   */
  lemma ClickOnlyCaptures(st: State, s: Square)
    requires Inv(st) && IsValidSquare(s)
    ensures Clicked(st, s).board != st.board ==>
      st.status == Playing && st.selected.Some? && CanJumpTo(st, s) &&
      ColorCount(Clicked(st, s).board, Opponent(st.player)) + 1 == ColorCount(st.board, Opponent(st.player))
  {
    if st.status == Playing && st.selected.Some? && st.selected.value != s {
      var from := st.selected.value;
      var found := FindMove(Jumps(st.board, from, At(st.board, from).value), s);
      if found.Some? {
        var m := found.value;
        JumpsExact(st.board, from, At(st.board, from).value, m);
        PlayedBoard(st, from, m);
        MakeMoveCount(st.board, from, m, Opponent(st.player));
        assert Owns(At(st.board, m.captured.value), Opponent(st.player)) == 1;
        assert IsJump(st.board, from, At(st.board, from).value, m) && m.to == s;
      }
    }
  }

  /**
   * The click guards: a finished game ignores clicks; clicking the selection deselects it and
   * drops `mustCapture`; a pending multi-jump is either continued by a capture or abandoned,
   * never handed to another piece.
   */
  lemma ClickGuards(st: State, s: Square)
    requires Inv(st) && IsValidSquare(s)
    ensures st.status != Playing ==> Clicked(st, s) == st
    ensures st.status == Playing && st.selected == Some(s) ==>
      Clicked(st, s) == st.(selected := None, mustCapture := false)
    ensures st.mustCapture && Clicked(st, s).board == st.board ==>
      Clicked(st, s).selected.None? && !Clicked(st, s).mustCapture
  {
    if st.status == Playing && st.selected.Some? && st.selected.value != s {
      var from := st.selected.value;
      var found := FindMove(Jumps(st.board, from, At(st.board, from).value), s);
      if found.Some? {
        JumpsExact(st.board, from, At(st.board, from).value, found.value);
        var m := found.value;
        var c := m.captured.value;
        PlayedBoard(st, from, m);
        assert At(st.board, c).Some?;
        assert At(Clicked(st, s).board, c).None?;
      }
    }
  }

  /**
   * As written, no click changes the starting board: no piece can jump there, and plain steps are
   * never offered to the click handler.
   */
  lemma StartFrozen(st: State, s: Square)
    requires Inv(st) && IsStartBoard(st.board) && IsValidSquare(s)
    ensures Clicked(st, s).board == st.board
  {
    if st.status == Playing && st.selected.Some? && st.selected.value != s {
      StartNoJumps(st.board, st.selected.value);
    }
  }

  /** The component: its fields are the state variables. */
  class Game {
    var board: Board
    var selectedSquare: Option<Square>
    var currentPlayer: Color
    var capturedRed: nat
    var capturedBlack: nat
    var mustCapture: bool
    var gameStatus: Status

    function Snapshot(): State
      reads this
    {
      State(board, selectedSquare, currentPlayer, capturedRed, capturedBlack, mustCapture, gameStatus)
    }

    ghost predicate Valid()
      reads this
    {
      Inv(Snapshot())
    }

    constructor ()
      ensures Valid() && IsStart(Snapshot())
    {
      var initialBoard := NewBoard();
      board := initialBoard;
      selectedSquare := None;
      currentPlayer := Red;
      capturedRed, capturedBlack := 0, 0;
      mustCapture := false;
      gameStatus := Playing;
      new;
      StartInv(Snapshot());
    }

    /** `resetGame`. */
    method ResetGame()
      modifies this
      ensures Valid() && IsStart(Snapshot())
    {
      var initialBoard := NewBoard();
      board := initialBoard;
      selectedSquare := None;
      currentPlayer := Red;
      capturedRed, capturedBlack := 0, 0;
      mustCapture := false;
      gameStatus := Playing;
      StartInv(Snapshot());
    }

    /** `makeMove` for the selected piece on `from`. */
    method PlayMove(from: Square, m: Move)
      requires Valid() && gameStatus == Playing && selectedSquare == Some(from) && Legal(board, from, m)
      modifies this
      ensures Snapshot() == Played(old(Snapshot()), from, m)
      ensures Valid()
    {
      ghost var st := Snapshot();
      PlayedKeepsInv(st, from, m);
      MoveOnBoard(from, m);
      ContinueOrPass(m);
      assert Inv(Played(st, from, m));
    }

    /** `makeMove`'s board work: the copied board with the move made, and the captured tally. */
    method MoveOnBoard(from: Square, m: Move)
      requires IsBoard(board) && Legal(board, from, m)
      modifies this
      ensures Snapshot() == Moved(old(Snapshot()), from, m)
    {
      var newBoard, capturedPiece := CopyAndMove(board, from, m.to, m.captured);
      if capturedPiece.Some? {
        if capturedPiece.value.color == Red {
          capturedRed := capturedRed + 1;
        } else {
          capturedBlack := capturedBlack + 1;
        }
      }
      board := newBoard;
    }

    /** `makeMove`'s follow-up on the piece that landed on `m.to`. */
    method ContinueOrPass(m: Move)
      requires IsBoard(board) && IsValidSquare(m.to) && At(board, m.to).Some?
      modifies this
      ensures Snapshot() == FollowUp(old(Snapshot()), m)
    {
      var _, captures := GetValidMoves(board, m.to, board[m.to.row][m.to.col], true);
      if |captures| > 0 && m.captured.Some? {
        selectedSquare := Some(m.to);
        mustCapture := true;
      } else {
        selectedSquare := None;
        currentPlayer := Opponent(currentPlayer);
        mustCapture := false;
        gameStatus := CheckGameEnd(board, gameStatus);
      }
    }

    /** `handleSquareClick`. */
    method HandleSquareClick(row: int, col: int)
      requires Valid() && IsValidSquare(Square(row, col))
      modifies this
      ensures Snapshot() == Clicked(old(Snapshot()), Square(row, col))
      ensures Valid()
    {
      ClickKeepsInv(Snapshot(), Square(row, col));
      if gameStatus != Playing {
        return;
      }
      var s := Square(row, col);
      var piece := board[row][col];
      var allCaptures := GetAllCaptures(board, currentPlayer);
      var hasCaptures := |allCaptures| > 0;
      if selectedSquare.Some? {
        ClickWithSelection(s, hasCaptures);
      } else if piece.Some? && piece.value.color == currentPlayer {
        selectedSquare := Some(s);
      }
    }

    /**
     * `handleSquareClick` while a piece is selected. Whatever `hasCaptures` is, the outcome is
     * the same: every move the handler finds is a capture.
     */
    method ClickWithSelection(s: Square, hasCaptures: bool)
      requires Valid() && IsValidSquare(s) && gameStatus == Playing && selectedSquare.Some?
      modifies this
      ensures Snapshot() == Clicked(old(Snapshot()), s)
    {
      var from := selectedSquare.value;
      var selectedPiece := board[from.row][from.col];
      var piece := board[s.row][s.col];
      if from == s {
        selectedSquare := None;
        mustCapture := false;
        return;
      }
      var moves, captures := GetValidMoves(board, from, selectedPiece, true);
      var allMoves := moves + captures;
      assert allMoves == captures;
      var validMove := FindMove(allMoves, s);
      if validMove.Some? {
        JumpsExact(board, from, selectedPiece.value, validMove.value);
        // `hasCaptures && validMove.type !== 'capture'` would return early.
        if !hasCaptures || validMove.value.captured.Some? {
          PlayMove(from, validMove.value);
        }
      } else if piece.Some? && piece.value.color == currentPlayer && !mustCapture {
        selectedSquare := Some(s);
      } else {
        selectedSquare := None;
        mustCapture := false;
      }
    }
  }
}
