/**
 * Simplified chess on an 8x8 board. Each of the six piece kinds generates its moves: pawns step
 * and capture, knights and kings use fixed offsets, and rooks, bishops and queens cast rays.
 * A click handler selects a piece of the side to move and plays one of its generated moves,
 * recording captures and history. There is no check, castling, en passant or promotion, and the
 * game never ends.
 */
module Chess {
  import opened Common

  const Size := 8

  datatype Color = White | Black

  datatype Kind = Pawn | Knight | Bishop | Rook | Queen | King

  /** A piece. The engine writes it as a letter: upper case for white, lower case for black. */
  datatype Piece = Piece(kind: Kind, color: Color)

  /** Rows of squares; `None` is an empty square. */
  type Board = seq<seq<Option<Piece>>>

  datatype Square = Square(row: int, col: int)

  function Opponent(c: Color): Color
  {
    if c == White then Black else White
  }

  /** The engine's letter code for a piece. */
  function Letter(p: Piece): char
  {
    var lower := match p.kind
      case Pawn => 'p' case Knight => 'n' case Bishop => 'b'
      case Rook => 'r' case Queen => 'q' case King => 'k';
    if p.color == White then (lower as int - 32) as char else lower
  }

  /** The letter code is one-to-one, and its case is the colour. */
  lemma LetterCode(p: Piece, q: Piece)
    ensures Letter(p) == Letter(q) ==> p == q
    ensures p.color == White <==> 'A' <= Letter(p) <= 'Z'
    ensures p.color == Black <==> 'a' <= Letter(p) <= 'z'
  {
  }

  predicate IsBoard(b: Board)
  {
    |b| == Size && forall r :: 0 <= r < Size ==> |b[r]| == Size
  }

  /** `isValidSquare`. */
  predicate IsValidSquare(s: Square)
  {
    0 <= s.row < Size && 0 <= s.col < Size
  }

  function At(b: Board, s: Square): Option<Piece>
    requires IsBoard(b) && IsValidSquare(s)
  {
    b[s.row][s.col]
  }

  /** `isWhitePiece`: an upper-case letter; an empty square is no piece. */
  predicate IsWhitePiece(p: Option<Piece>)
  {
    p.Some? && p.value.color == White
  }

  /** `isBlackPiece`: a lower-case letter. */
  predicate IsBlackPiece(p: Option<Piece>)
  {
    p.Some? && p.value.color == Black
  }

  predicate IsCurrentPlayerPiece(player: Color, p: Option<Piece>)
  {
    if player == White then IsWhitePiece(p) else IsBlackPiece(p)
  }

  predicate IsOpponentPiece(player: Color, p: Option<Piece>)
  {
    if player == White then IsBlackPiece(p) else IsWhitePiece(p)
  }

  /** The colour predicates in terms of colours. */
  lemma PlayerPieces(player: Color, p: Option<Piece>)
    ensures IsCurrentPlayerPiece(player, p) <==> p.Some? && p.value.color == player
    ensures IsOpponentPiece(player, p) <==> p.Some? && p.value.color == Opponent(player)
    ensures !(IsCurrentPlayerPiece(player, p) && IsOpponentPiece(player, p))
  {
  }

  /**
   * The engine's test that two pieces are on opposite sides: exactly one of them belongs to the
   * side to move. Whoever is to move, it holds exactly when their colours differ.
   */
  lemma SidesDiffer(player: Color, a: Piece, b: Piece)
    ensures IsCurrentPlayerPiece(player, Some(a)) != IsCurrentPlayerPiece(player, Some(b)) <==> a.color != b.color
  {
  }

  predicate Empty(b: Board, s: Square)
    requires IsBoard(b)
  {
    IsValidSquare(s) && At(b, s).None?
  }

  /** An on-board square holding a piece of the other colour than `piece`. */
  predicate Enemy(b: Board, s: Square, piece: Piece)
    requires IsBoard(b)
  {
    IsValidSquare(s) && At(b, s).Some? && At(b, s).value.color != piece.color
  }

  /** An on-board square `piece` may land on: empty, or holding an enemy. */
  predicate Takeable(b: Board, s: Square, piece: Piece)
    requires IsBoard(b)
  {
    Empty(b, s) || Enemy(b, s, piece)
  }

  // ---------------------------------------------------------------------------------------------
  // Pawns

  /** A pawn's row step: white moves up the board (row - 1), black down. */
  function Forward(c: Color): int
  {
    if c == White then -1 else 1
  }

  function StartRow(c: Color): int
  {
    if c == White then 6 else 1
  }

  /** Squares a pawn may move to: one ahead if empty, two ahead from its start row if both are
      empty, and one diagonally ahead onto an enemy. */
  ghost predicate PawnTarget(b: Board, from: Square, piece: Piece, t: Square)
    requires IsBoard(b)
  {
    var dir := Forward(piece.color);
    var one := Square(from.row + dir, from.col);
    (t == one && Empty(b, one)) ||
    (t == Square(from.row + 2 * dir, from.col) && from.row == StartRow(piece.color) && Empty(b, one) && Empty(b, t)) ||
    (t.row == from.row + dir && (t.col == from.col - 1 || t.col == from.col + 1) && Enemy(b, t, piece))
  }

  method PawnMoves(b: Board, from: Square, piece: Piece, player: Color) returns (moves: seq<Square>)
    requires IsBoard(b) && IsValidSquare(from)
    ensures forall t :: t in moves <==> PawnTarget(b, from, piece, t)
  {
    moves := [];
    var direction := if IsWhitePiece(Some(piece)) then -1 else 1;
    var startRow := if IsWhitePiece(Some(piece)) then 6 else 1;
    var one := Square(from.row + direction, from.col);
    if IsValidSquare(one) && At(b, one).None? {
      moves := moves + [one];
      var two := Square(from.row + 2 * direction, from.col);
      if from.row == startRow && At(b, two).None? {
        moves := moves + [two];
      }
    }
    ghost var pushes := moves;
    var colOffsets := [-1, 1];
    var k := 0;
    while k < |colOffsets|
      invariant 0 <= k <= |colOffsets|
      invariant forall t :: t in moves <==>
        (t in pushes ||
         (t.row == from.row + direction && Enemy(b, t, piece) &&
          ((k > 0 && t.col == from.col - 1) || (k > 1 && t.col == from.col + 1))))
    {
      var s := Square(from.row + direction, from.col + colOffsets[k]);
      if IsValidSquare(s) && At(b, s).Some? {
        SidesDiffer(player, piece, At(b, s).value);
        if IsCurrentPlayerPiece(player, Some(piece)) != IsCurrentPlayerPiece(player, At(b, s)) {
          moves := moves + [s];
        }
      }
      k := k + 1;
    }
  }

  // ---------------------------------------------------------------------------------------------
  // Offset pieces: knight and king

  datatype Dir = Dir(dr: int, dc: int)

  function Shift(s: Square, d: Dir): Square
  {
    Square(s.row + d.dr, s.col + d.dc)
  }

  function KnightOffsets(): seq<Dir>
  {
    [Dir(-2, -1), Dir(-2, 1), Dir(-1, -2), Dir(-1, 2), Dir(1, -2), Dir(1, 2), Dir(2, -1), Dir(2, 1)]
  }

  function RookDirections(): seq<Dir>
  {
    [Dir(0, 1), Dir(0, -1), Dir(1, 0), Dir(-1, 0)]
  }

  function BishopDirections(): seq<Dir>
  {
    [Dir(1, 1), Dir(1, -1), Dir(-1, 1), Dir(-1, -1)]
  }

  /** The queen's directions, which are also the king's offsets: rook lines, then diagonals. */
  function QueenDirections(): seq<Dir>
  {
    RookDirections() + BishopDirections()
  }

  /** `t` is one of the offsets from `from` and `piece` may land there. */
  ghost predicate OffsetTarget(b: Board, from: Square, offsets: seq<Dir>, piece: Piece, t: Square)
    requires IsBoard(b)
  {
    (exists k :: 0 <= k < |offsets| && t == Shift(from, offsets[k])) && Takeable(b, t, piece)
  }

  /** The knight and king loops: every offset square on the board that is empty or an enemy. */
  method OffsetMoves(b: Board, from: Square, offsets: seq<Dir>, piece: Piece, player: Color)
    returns (moves: seq<Square>)
    requires IsBoard(b)
    ensures forall t :: t in moves <==> OffsetTarget(b, from, offsets, piece, t)
  {
    moves := [];
    var k := 0;
    while k < |offsets|
      invariant 0 <= k <= |offsets|
      invariant forall t :: t in moves <==>
        (exists j :: 0 <= j < k && t == Shift(from, offsets[j])) && Takeable(b, t, piece)
    {
      var s := Shift(from, offsets[k]);
      if IsValidSquare(s) {
        if At(b, s).Some? {
          SidesDiffer(player, piece, At(b, s).value);
        }
        if At(b, s).None? || IsCurrentPlayerPiece(player, Some(piece)) != IsCurrentPlayerPiece(player, At(b, s)) {
          moves := moves + [s];
        }
      }
      k := k + 1;
    }
  }

  // ---------------------------------------------------------------------------------------------
  // Sliding pieces: rook, bishop and queen

  /** `i` times a unit component `x` (-1, 0 or 1), written without multiplying. */
  function Scale(i: int, x: int): int
  {
    if x == 0 then 0 else if x > 0 then i else -i
  }

  /** The square `i` steps from `s` along `d`. */
  function Along(s: Square, d: Dir, i: int): Square
  {
    Square(s.row + Scale(i, d.dr), s.col + Scale(i, d.dc))
  }

  predicate IsUnit(d: Dir)
  {
    -1 <= d.dr <= 1 && -1 <= d.dc <= 1 && d != Dir(0, 0)
  }

  /** How many steps along `d` lead from `s` to `t`, read off a moving coordinate. */
  function Steps(s: Square, d: Dir, t: Square): int
  {
    if d.dr != 0 then Scale(t.row - s.row, d.dr) else Scale(t.col - s.col, d.dc)
  }

  lemma StepsAlong(s: Square, d: Dir, i: int)
    requires IsUnit(d)
    ensures Steps(s, d, Along(s, d, i)) == i
  {
  }

  /**
   * `t` lies on the ray from `from` along `d`, every square before it is empty, and `piece` may
   * land on it. So the ray holds the empty squares up to the first occupied one, that square only
   * if it holds an enemy, and nothing beyond it.
   */
  ghost predicate RayTarget(b: Board, from: Square, d: Dir, piece: Piece, t: Square)
    requires IsBoard(b)
  {
    var i := Steps(from, d, t);
    1 <= i < Size && t == Along(from, d, i) && Takeable(b, t, piece) &&
    forall j :: 1 <= j < i ==> Empty(b, Along(from, d, j))
  }

  /** One ray of the rook, bishop and queen loops: walk out until off the board or blocked. */
  method RayMoves(b: Board, from: Square, d: Dir, piece: Piece, player: Color) returns (moves: seq<Square>)
    requires IsBoard(b) && IsUnit(d)
    ensures forall t :: t in moves <==> RayTarget(b, from, d, piece, t)
  {
    moves := [];
    var i := 1;
    while i < Size
      invariant 1 <= i <= Size
      invariant forall j :: 1 <= j < i ==> Empty(b, Along(from, d, j))
      invariant forall t :: t in moves <==> 1 <= Steps(from, d, t) < i && t == Along(from, d, Steps(from, d, t))
    {
      var s := Along(from, d, i);
      StepsAlong(from, d, i);
      if !IsValidSquare(s) {
        break;
      }
      if At(b, s).None? {
        moves := moves + [s];
      } else {
        SidesDiffer(player, piece, At(b, s).value);
        if IsCurrentPlayerPiece(player, Some(piece)) != IsCurrentPlayerPiece(player, At(b, s)) {
          moves := moves + [s];
        }
        break;
      }
      i := i + 1;
    }
  }

  ghost predicate SlideTarget(b: Board, from: Square, dirs: seq<Dir>, piece: Piece, t: Square)
    requires IsBoard(b)
  {
    exists k :: 0 <= k < |dirs| && RayTarget(b, from, dirs[k], piece, t)
  }

  /** The direction loop of the sliding pieces: the rays' squares, one direction after another. */
  method SlideMoves(b: Board, from: Square, dirs: seq<Dir>, piece: Piece, player: Color) returns (moves: seq<Square>)
    requires IsBoard(b) && forall k :: 0 <= k < |dirs| ==> IsUnit(dirs[k])
    ensures forall t :: t in moves <==> SlideTarget(b, from, dirs, piece, t)
  {
    moves := [];
    var k := 0;
    while k < |dirs|
      invariant 0 <= k <= |dirs|
      invariant forall t :: t in moves <==> exists j :: 0 <= j < k && RayTarget(b, from, dirs[j], piece, t)
    {
      var ray := RayMoves(b, from, dirs[k], piece, player);
      moves := moves + ray;
      k := k + 1;
    }
  }

  // ---------------------------------------------------------------------------------------------
  // All pieces

  /** The squares `piece` standing on `from` may move to. */
  ghost predicate Target(b: Board, from: Square, piece: Piece, t: Square)
    requires IsBoard(b)
  {
    match piece.kind
    case Pawn => PawnTarget(b, from, piece, t)
    case Knight => OffsetTarget(b, from, KnightOffsets(), piece, t)
    case Bishop => SlideTarget(b, from, BishopDirections(), piece, t)
    case Rook => SlideTarget(b, from, RookDirections(), piece, t)
    case Queen => SlideTarget(b, from, QueenDirections(), piece, t)
    case King => OffsetTarget(b, from, QueenDirections(), piece, t)
  }

  /** `getValidMoves`: the move list of `piece` on `from`, dispatched on its kind. */
  method GetValidMoves(b: Board, from: Square, piece: Piece, player: Color) returns (moves: seq<Square>)
    requires IsBoard(b) && IsValidSquare(from)
    ensures forall t :: t in moves <==> Target(b, from, piece, t)
  {
    match piece.kind
    case Pawn =>
      moves := PawnMoves(b, from, piece, player);
    case Rook =>
      moves := SlideMoves(b, from, RookDirections(), piece, player);
    case Knight =>
      moves := OffsetMoves(b, from, KnightOffsets(), piece, player);
    case Bishop =>
      moves := SlideMoves(b, from, BishopDirections(), piece, player);
    case Queen =>
      moves := SlideMoves(b, from, QueenDirections(), piece, player);
    case King =>
      moves := OffsetMoves(b, from, QueenDirections(), piece, player);
  }

  /** No generated square is off the board, the start square, or held by the mover's colour. */
  lemma TargetsAreLandable(b: Board, from: Square, piece: Piece, t: Square)
    requires IsBoard(b) && Target(b, from, piece, t)
    ensures IsValidSquare(t) && t != from
    ensures At(b, t).None? || At(b, t).value.color != piece.color
  {
    match piece.kind
    case Pawn =>
    case Knight =>
    case King =>
    case Bishop =>
      var k :| 0 <= k < 4 && RayTarget(b, from, BishopDirections()[k], piece, t);
    case Rook =>
      var k :| 0 <= k < 4 && RayTarget(b, from, RookDirections()[k], piece, t);
    case Queen =>
      var k :| 0 <= k < 8 && RayTarget(b, from, QueenDirections()[k], piece, t);
  }

  // ---------------------------------------------------------------------------------------------
  // Boards and pieces

  function BackRank(c: Color): seq<Option<Piece>>
  {
    [Some(Piece(Rook, c)), Some(Piece(Knight, c)), Some(Piece(Bishop, c)), Some(Piece(Queen, c)),
     Some(Piece(King, c)), Some(Piece(Bishop, c)), Some(Piece(Knight, c)), Some(Piece(Rook, c))]
  }

  /** `INITIAL_BOARD`: black on rows 0 and 1, white on rows 6 and 7, the middle empty. */
  function InitialBoard(): (b: Board)
    ensures IsBoard(b)
  {
    [BackRank(Black), seq(Size, _ => Some(Piece(Pawn, Black)))] +
    seq(4, _ => seq(Size, _ => None)) +
    [seq(Size, _ => Some(Piece(Pawn, White))), BackRank(White)]
  }

  /** Every pawn starts on its colour's start row, and the middle rows start empty. */
  lemma InitialBoardFacts()
    ensures forall c :: 0 <= c < Size ==>
      At(InitialBoard(), Square(StartRow(White), c)) == Some(Piece(Pawn, White)) &&
      At(InitialBoard(), Square(StartRow(Black), c)) == Some(Piece(Pawn, Black))
    ensures forall s :: IsValidSquare(s) && 2 <= s.row < 6 ==> At(InitialBoard(), s).None?
    ensures forall s :: IsValidSquare(s) && At(InitialBoard(), s).Some? ==>
      (At(InitialBoard(), s).value.color == Black <==> s.row < 2)
  {
  }

  /** 1 when the square holds `p`. */
  function Holds(o: Option<Piece>, p: Piece): nat
  {
    if o == Some(p) then 1 else 0
  }

  /** How many squares of a row hold `p`. */
  function RowCount(row: seq<Option<Piece>>, p: Piece): nat
  {
    if row == [] then 0 else RowCount(row[..|row| - 1], p) + Holds(row[|row| - 1], p)
  }

  /** How many squares of a board hold `p`. */
  function PieceCount(b: seq<seq<Option<Piece>>>, p: Piece): nat
  {
    if b == [] then 0 else PieceCount(b[..|b| - 1], p) + RowCount(b[|b| - 1], p)
  }

  lemma {:induction false} RowCountUpdate(row: seq<Option<Piece>>, c: nat, o: Option<Piece>, p: Piece)
    requires c < |row|
    ensures RowCount(row[c := o], p) + Holds(row[c], p) == RowCount(row, p) + Holds(o, p)
    decreases |row|
  {
    var last := |row| - 1;
    var row' := row[c := o];
    if c < last {
      assert row'[..last] == row[..last][c := o];
      assert row'[last] == row[last] && row[..last][c] == row[c];
      RowCountUpdate(row[..last], c, o, p);
    } else {
      assert row'[..last] == row[..last];
    }
  }

  lemma {:induction false} PieceCountUpdate(b: seq<seq<Option<Piece>>>, r: nat, row: seq<Option<Piece>>, p: Piece)
    requires r < |b|
    ensures PieceCount(b[r := row], p) + RowCount(b[r], p) == PieceCount(b, p) + RowCount(row, p)
    decreases |b|
  {
    var last := |b| - 1;
    var b' := b[r := row];
    if r < last {
      assert b'[..last] == b[..last][r := row];
      assert b'[last] == b[last] && b[..last][r] == b[r];
      PieceCountUpdate(b[..last], r, row, p);
    } else {
      assert b'[..last] == b[..last];
    }
  }

  /** The board with square `s` set to `o`. */
  function Place(b: Board, s: Square, o: Option<Piece>): (r: Board)
    requires IsBoard(b) && IsValidSquare(s)
    ensures IsBoard(r) && At(r, s) == o
    ensures forall t :: IsValidSquare(t) && t != s ==> At(r, t) == At(b, t)
  {
    var row: seq<Option<Piece>> := b[s.row][s.col := o];
    b[s.row := row]
  }

  /** Setting a square swaps the piece it held for the new one. */
  lemma PlaceCount(b: Board, s: Square, o: Option<Piece>, p: Piece)
    requires IsBoard(b) && IsValidSquare(s)
    ensures PieceCount(Place(b, s, o), p) + Holds(At(b, s), p) == PieceCount(b, p) + Holds(o, p)
  {
    RowCountUpdate(b[s.row], s.col, o, p);
    PieceCountUpdate(b, s.row, b[s.row][s.col := o], p);
  }

  /** The board after the piece on `from` moves to `to`: `to` first, then `from` cleared. */
  function MakeMove(b: Board, from: Square, to: Square): (r: Board)
    requires IsBoard(b) && IsValidSquare(from) && IsValidSquare(to) && from != to
    ensures IsBoard(r) && At(r, to) == At(b, from) && At(r, from).None?
    ensures forall t :: IsValidSquare(t) && t != from && t != to ==> At(r, t) == At(b, t)
  {
    Place(Place(b, to, At(b, from)), from, None)
  }

  /** A move keeps every piece except the one it captures. */
  lemma MakeMoveCount(b: Board, from: Square, to: Square, p: Piece)
    requires IsBoard(b) && IsValidSquare(from) && IsValidSquare(to) && from != to
    ensures PieceCount(MakeMove(b, from, to), p) + Holds(At(b, to), p) == PieceCount(b, p)
  {
    var b1 := Place(b, to, At(b, from));
    PlaceCount(b, to, At(b, from), p);
    PlaceCount(b1, from, None, p);
  }

  /** Every piece of the initial board is on `b` or in one of the captured lists. */
  ghost predicate Conserved(b: Board, cw: seq<Piece>, cb: seq<Piece>)
  {
    forall p :: PieceCount(b, p) + multiset(cw)[p] + multiset(cb)[p] == PieceCount(InitialBoard(), p)
  }

  /** A move that files the taken piece under its colour keeps every piece accounted for. */
  lemma MoveConserves(b: Board, from: Square, to: Square, cw: seq<Piece>, cb: seq<Piece>)
    requires IsBoard(b) && IsValidSquare(from) && IsValidSquare(to) && from != to
    requires Conserved(b, cw, cb)
    ensures var t := At(b, to);
      Conserved(MakeMove(b, from, to),
                cw + (if IsWhitePiece(t) then [t.value] else []),
                cb + (if IsBlackPiece(t) then [t.value] else []))
  {
    var t := At(b, to);
    var cw' := cw + (if IsWhitePiece(t) then [t.value] else []);
    var cb' := cb + (if IsBlackPiece(t) then [t.value] else []);
    forall p
      ensures PieceCount(MakeMove(b, from, to), p) + multiset(cw')[p] + multiset(cb')[p] ==
              PieceCount(InitialBoard(), p)
    {
      MakeMoveCount(b, from, to, p);
      assert multiset(cw')[p] + multiset(cb')[p] == multiset(cw)[p] + multiset(cb)[p] + Holds(t, p);
    }
  }

  /** A `moveHistory` entry. */
  datatype MoveRecord = MoveRecord(from: Square, to: Square, piece: Piece, captured: Option<Piece>)

  /**
   * The component's invariant. A selection is always a piece of the side to move. Every piece of
   * the initial board is either still on the board or in the captured list of its colour. White
   * moves after an even number of moves.
   */
  ghost predicate State(b: Board, sel: Option<Square>, player: Color, history: seq<MoveRecord>,
                        cw: seq<Piece>, cb: seq<Piece>)
  {
    IsBoard(b) &&
    (sel.Some? ==> IsValidSquare(sel.value) && IsCurrentPlayerPiece(player, At(b, sel.value))) &&
    (forall p :: p in cw ==> p.color == White) &&
    (forall p :: p in cb ==> p.color == Black) &&
    Conserved(b, cw, cb) &&
    player == (if |history| % 2 == 0 then White else Black)
  }

  /** Playing the selected piece keeps the invariant. */
  lemma MoveKeepsState(b: Board, from: Square, to: Square, player: Color, history: seq<MoveRecord>,
                       cw: seq<Piece>, cb: seq<Piece>)
    requires State(b, Some(from), player, history, cw, cb) && IsValidSquare(to) && from != to
    ensures var t := At(b, to);
      State(MakeMove(b, from, to), None, Opponent(player),
            history + [MoveRecord(from, to, At(b, from).value, t)],
            cw + (if IsWhitePiece(t) then [t.value] else []),
            cb + (if IsBlackPiece(t) then [t.value] else []))
  {
    MoveConserves(b, from, to, cw, cb);
  }

  // ---------------------------------------------------------------------------------------------
  // The component

  /** The component's state: `board`, `selectedSquare`, `currentPlayer`, `moveHistory` and the
      white and black lists of `capturedPieces`. */
  class Game {
    var board: Board
    var selectedSquare: Option<Square>
    var currentPlayer: Color
    var moveHistory: seq<MoveRecord>
    var capturedWhite: seq<Piece>
    var capturedBlack: seq<Piece>

    /** The invariant `State` states, over the fields. */
    ghost predicate Valid()
      reads this
    {
      State(board, selectedSquare, currentPlayer, moveHistory, capturedWhite, capturedBlack)
    }

    constructor ()
      ensures Valid()
      ensures board == InitialBoard() && selectedSquare == None && currentPlayer == White
      ensures moveHistory == [] && capturedWhite == [] && capturedBlack == []
    {
      board := InitialBoard();
      selectedSquare := None;
      currentPlayer := White;
      moveHistory := [];
      capturedWhite := [];
      capturedBlack := [];
    }

    /** `resetGame`. */
    method ResetGame()
      modifies this
      ensures Valid()
      ensures board == InitialBoard() && selectedSquare == None && currentPlayer == White
      ensures moveHistory == [] && capturedWhite == [] && capturedBlack == []
    {
      board := InitialBoard();
      selectedSquare := None;
      currentPlayer := White;
      moveHistory := [];
      capturedWhite := [];
      capturedBlack := [];
    }

    /** The move branch of `handleSquareClick`: the selected piece on `from` goes to `to`. */
    method PlayMove(from: Square, to: Square)
      requires Valid() && selectedSquare == Some(from) && IsValidSquare(to) && from != to
      modifies this
      ensures Valid()
      ensures var piece := At(old(board), from).value;
        var taken := At(old(board), to);
        board == MakeMove(old(board), from, to) &&
        capturedWhite == old(capturedWhite) + (if IsWhitePiece(taken) then [taken.value] else []) &&
        capturedBlack == old(capturedBlack) + (if IsBlackPiece(taken) then [taken.value] else []) &&
        moveHistory == old(moveHistory) + [MoveRecord(from, to, piece, taken)] &&
        currentPlayer == Opponent(old(currentPlayer)) && selectedSquare == None
    {
      var selectedPiece := At(board, from).value;
      var capturedPiece := At(board, to);
      var newBoard := MakeMove(board, from, to);
      MoveKeepsState(board, from, to, currentPlayer, moveHistory, capturedWhite, capturedBlack);
      if IsWhitePiece(capturedPiece) {
        capturedWhite := capturedWhite + [capturedPiece.value];
      } else if IsBlackPiece(capturedPiece) {
        capturedBlack := capturedBlack + [capturedPiece.value];
      }
      board := newBoard;
      moveHistory := moveHistory + [MoveRecord(from, to, selectedPiece, capturedPiece)];
      currentPlayer := Opponent(currentPlayer);
      selectedSquare := None;
    }

    /**
     * `handleSquareClick`. With a selection: the selected square deselects; a generated target
     * plays the move; another piece of the side to move becomes the selection; anything else
     * clears it. Without one, a piece of the side to move is selected.
     */
    method HandleSquareClick(row: int, col: int)
      requires Valid() && IsValidSquare(Square(row, col))
      modifies this
      ensures Valid()
      ensures var s := Square(row, col);
        if old(selectedSquare).Some? && old(selectedSquare).value != s &&
           Target(old(board), old(selectedSquare).value, At(old(board), old(selectedSquare).value).value, s)
        then
          var from := old(selectedSquare).value;
          var taken := At(old(board), s);
          board == MakeMove(old(board), from, s) &&
          capturedWhite == old(capturedWhite) + (if IsWhitePiece(taken) then [taken.value] else []) &&
          capturedBlack == old(capturedBlack) + (if IsBlackPiece(taken) then [taken.value] else []) &&
          moveHistory == old(moveHistory) + [MoveRecord(from, s, At(old(board), from).value, taken)] &&
          currentPlayer == Opponent(old(currentPlayer)) && selectedSquare == None
        else
          board == old(board) && currentPlayer == old(currentPlayer) && moveHistory == old(moveHistory) &&
          capturedWhite == old(capturedWhite) && capturedBlack == old(capturedBlack) &&
          selectedSquare ==
            if old(selectedSquare) == Some(s) then None
            else if IsCurrentPlayerPiece(old(currentPlayer), At(old(board), s)) then Some(s)
            else if old(selectedSquare).Some? then None
            else old(selectedSquare)
    {
      var s := Square(row, col);
      var piece := At(board, s);
      if selectedSquare.Some? {
        var from := selectedSquare.value;
        var selectedPiece := At(board, from).value;
        if from == s {
          selectedSquare := None;
          return;
        }
        var validMoves := GetValidMoves(board, from, selectedPiece, currentPlayer);
        if s in validMoves {
          PlayMove(from, s);
        } else if piece.Some? && IsCurrentPlayerPiece(currentPlayer, piece) {
          selectedSquare := Some(s);
        } else {
          selectedSquare := None;
        }
      } else if piece.Some? && IsCurrentPlayerPiece(currentPlayer, piece) {
        selectedSquare := Some(s);
      }
    }
  }
}
