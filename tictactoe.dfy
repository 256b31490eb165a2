/** Tic-Tac-Toe: nine squares, two alternating marks, eight winning lines, running tallies. */
module TicTacToe {
  import opened Common

  datatype Mark = X | O

  /** The nine squares in row-major order; None is an empty square. */
  type Board = seq<Option<Mark>>

  /** What `calculateWinner` returns: the winning mark and the line it fills. */
  datatype Win = Win(mark: Mark, line: seq<nat>)

  /** The `winner` state once a game has ended: a mark, or 'draw'. */
  datatype Outcome = Winner(mark: Mark) | Draw

  datatype Scores = Scores(x: nat, o: nat, draws: nat)

  /** `winningPatterns`: three rows, three columns, two diagonals, in this order. */
  const WinningPatterns: seq<seq<nat>> :=
    [[0, 1, 2], [3, 4, 5], [6, 7, 8], [0, 3, 6], [1, 4, 7], [2, 5, 8], [0, 4, 8], [2, 4, 6]]

  const EmptyBoard: Board := [None, None, None, None, None, None, None, None, None]

  lemma PatternsWellFormed()
    ensures |WinningPatterns| == 8
    ensures forall k :: 0 <= k < 8 ==> |WinningPatterns[k]| == 3
    ensures forall k, j :: 0 <= k < 8 && 0 <= j < 3 ==> WinningPatterns[k][j] < 9
  {
  }

  /** Pattern k has three equal non-empty squares. */
  predicate PatternWins(squares: Board, k: nat)
    requires |squares| == 9 && k < 8
  {
    PatternsWellFormed();
    var p := WinningPatterns[k];
    squares[p[0]].Some? && squares[p[0]] == squares[p[1]] && squares[p[0]] == squares[p[2]]
  }

  /** The loop of `calculateWinner` from pattern i on: the first winning pattern, if any. */
  function WinnerFrom(squares: Board, i: nat): (r: Option<Win>)
    requires |squares| == 9 && i <= 8
    ensures r == None <==> forall k :: i <= k < 8 ==> !PatternWins(squares, k)
    ensures r.Some? ==>
      exists k :: i <= k < 8 && PatternWins(squares, k)
        && (forall k' :: i <= k' < k ==> !PatternWins(squares, k'))
        && r.value.line == WinningPatterns[k]
        && squares[WinningPatterns[k][0]] == Some(r.value.mark)
    decreases 8 - i
  {
    PatternsWellFormed();
    if i == 8 then None
    else if PatternWins(squares, i) then
      Some(Win(squares[WinningPatterns[i][0]].value, WinningPatterns[i]))
    else WinnerFrom(squares, i + 1)
  }

  /** `calculateWinner`: the first pattern, in listed order, whose squares hold three equal marks. */
  function CalculateWinner(squares: Board): (r: Option<Win>)
    requires |squares| == 9
    ensures r == None <==> forall k :: 0 <= k < 8 ==> !PatternWins(squares, k)
    ensures r.Some? ==>
      exists k :: 0 <= k < 8 && PatternWins(squares, k)
        && (forall k' :: 0 <= k' < k ==> !PatternWins(squares, k'))
        && r.value.line == WinningPatterns[k]
        && squares[WinningPatterns[k][0]] == Some(r.value.mark)
  {
    WinnerFrom(squares, 0)
  }

  predicate Full(squares: Board)
  {
    forall i :: 0 <= i < |squares| ==> squares[i].Some?
  }

  /** The number of squares holding m. */
  function Count(squares: Board, m: Mark): (r: nat)
    ensures r <= |squares|
  {
    if squares == [] then 0
    else (if squares[0] == Some(m) then 1 else 0) + Count(squares[1..], m)
  }

  /** Filling one empty square with m adds one m and no other mark. */
  lemma {:induction false} CountPlace(squares: Board, i: nat, m: Mark, other: Mark)
    requires i < |squares| && squares[i] == None
    ensures Count(squares[i := Some(m)], m) == Count(squares, m) + 1
    ensures other != m ==> Count(squares[i := Some(m)], other) == Count(squares, other)
  {
    var s' := squares[i := Some(m)];
    if i > 0 {
      assert s'[1..] == squares[1..][i - 1 := Some(m)];
      CountPlace(squares[1..], i - 1, m, other);
    } else {
      assert s'[1..] == squares[1..];
    }
  }

  lemma {:induction false} CountEmpty(squares: Board, m: Mark)
    requires forall i :: 0 <= i < |squares| ==> squares[i] == None
    ensures Count(squares, m) == 0
  {
    if squares != [] {
      CountEmpty(squares[1..], m);
    }
  }

  /** The marks alternate, X first; `isXNext` says whose turn it is. */
  ghost predicate Alternating(squares: Board, isXNext: bool)
  {
    && (Count(squares, X) == Count(squares, O) || Count(squares, X) == Count(squares, O) + 1)
    && (isXNext <==> Count(squares, X) == Count(squares, O))
  }

  /** The top row of X with the third X just placed is reported as an X win on that row. */
  lemma TopRowWin()
    ensures CalculateWinner([Some(X), Some(X), Some(X), None, Some(O), Some(O), None, None, None])
            == Some(Win(X, [0, 1, 2]))
  {
    var b := [Some(X), Some(X), Some(X), None, Some(O), Some(O), None, None, None];
    assert PatternWins(b, 0);
  }

  class Game {
    var board: Board
    var isXNext: bool
    var winner: Option<Outcome>
    var winningLine: seq<nat>
    var scores: Scores

    /** The board-change effect has been applied to the current board. */
    ghost predicate Valid()
      reads this
    {
      && |board| == 9
      && Alternating(board, isXNext)
      && (winner == None ==> CalculateWinner(board) == None && !Full(board))
      && (forall m :: winner == Some(Winner(m)) ==> CalculateWinner(board) == Some(Win(m, winningLine)))
      && (winner == Some(Draw) ==> CalculateWinner(board) == None && Full(board))
    }

    constructor ()
      ensures Valid()
      ensures board == EmptyBoard && isXNext && winner == None && winningLine == []
      ensures scores == Scores(0, 0, 0)
    {
      board := EmptyBoard;
      isXNext := true;
      winner := None;
      winningLine := [];
      scores := Scores(0, 0, 0);
      new;
      EmptyBoardState();
    }

    /** The board-change effect: record a winner and its line, or a draw on a full board,
        and add one to the matching tally. */
    method BoardEffect()
      requires |board| == 9
      modifies this
      ensures board == old(board) && isXNext == old(isXNext)
      ensures CalculateWinner(board).Some? ==>
                winner == Some(Winner(CalculateWinner(board).value.mark))
                && winningLine == CalculateWinner(board).value.line
                && scores == (if CalculateWinner(board).value.mark == X
                              then old(scores).(x := old(scores).x + 1)
                              else old(scores).(o := old(scores).o + 1))
      ensures CalculateWinner(board).None? && Full(board) ==>
                winner == Some(Draw) && winningLine == old(winningLine)
                && scores == old(scores).(draws := old(scores).draws + 1)
      ensures CalculateWinner(board).None? && !Full(board) ==>
                winner == old(winner) && winningLine == old(winningLine) && scores == old(scores)
    {
      var result := CalculateWinner(board);
      if result.Some? {
        winner := Some(Winner(result.value.mark));
        winningLine := result.value.line;
        if result.value.mark == X {
          scores := scores.(x := scores.x + 1);
        } else {
          scores := scores.(o := scores.o + 1);
        }
      } else if Full(board) {
        winner := Some(Draw);
        scores := scores.(draws := scores.draws + 1);
      }
    }

    /** `handleClick` followed by the board-change effect. A click on an occupied square or
        after the game has ended changes nothing; otherwise the mover's mark is written at that
        square only, the turn passes, and a finished game adds one to exactly one tally. */
    method HandleClick(index: nat)
      requires Valid() && index < 9
      modifies this
      ensures Valid()
      ensures old(board[index]).Some? || old(winner).Some? ==>
                board == old(board) && isXNext == old(isXNext) && winner == old(winner)
                && winningLine == old(winningLine) && scores == old(scores)
      ensures old(board[index]) == None && old(winner) == None ==>
                board == old(board)[index := Some(if old(isXNext) then X else O)]
                && isXNext == !old(isXNext)
      ensures old(board[index]) == None && old(winner) == None && winner == None ==>
                scores == old(scores)
      ensures old(board[index]) == None && old(winner) == None && winner.Some? ==>
                TallyOf(scores) == TallyOf(old(scores)) + 1
                && (winner == Some(Winner(X)) <==> scores.x == old(scores).x + 1)
                && (winner == Some(Winner(O)) <==> scores.o == old(scores).o + 1)
                && (winner == Some(Draw) <==> scores.draws == old(scores).draws + 1)
      ensures old(board[index]) == None && old(winner) == None ==>
                && (winner == Some(Winner(X)) ==> scores == old(scores).(x := old(scores).x + 1))
                && (winner == Some(Winner(O)) ==> scores == old(scores).(o := old(scores).o + 1))
                && (winner == Some(Draw) ==> scores == old(scores).(draws := old(scores).draws + 1))
    {
      if board[index].Some? || winner.Some? {
        return;
      }
      var mark := if isXNext then X else O;
      CountPlace(board, index, mark, if mark == X then O else X);
      board := board[index := Some(mark)];
      isXNext := !isXNext;
      BoardEffect();
    }

    /** `resetGame`: an empty board with X to move; the tallies are kept. */
    method ResetGame()
      modifies this
      ensures Valid()
      ensures board == EmptyBoard && isXNext && winner == None && winningLine == []
      ensures scores == old(scores)
    {
      board := EmptyBoard;
      isXNext := true;
      winner := None;
      winningLine := [];
      EmptyBoardState();
    }

    /** `resetScores`: all tallies to zero, then a fresh game. */
    method ResetScores()
      modifies this
      ensures Valid()
      ensures board == EmptyBoard && isXNext && winner == None && winningLine == []
      ensures scores == Scores(0, 0, 0)
    {
      scores := Scores(0, 0, 0);
      ResetGame();
    }
  }

  /** The sum of all tallies. */
  function TallyOf(s: Scores): nat
  {
    s.x + s.o + s.draws
  }

  /** The empty board has no winner, is not full and has X to move. */
  lemma EmptyBoardState()
    ensures CalculateWinner(EmptyBoard) == None && !Full(EmptyBoard)
    ensures Alternating(EmptyBoard, true)
  {
    CountEmpty(EmptyBoard, X);
    CountEmpty(EmptyBoard, O);
    PatternsWellFormed();
    forall k | 0 <= k < 8
      ensures !PatternWins(EmptyBoard, k)
    {
      assert EmptyBoard[WinningPatterns[k][0]] == None;
    }
    assert EmptyBoard[0] == None;
  }
}
