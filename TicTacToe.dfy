/**
 * The rigged tic-tac-toe game of src/components/slides/TicTacToeSlide.jsx:
 * a seeded board on which only the empty centre cell may be clicked, a win
 * check over the eight lines, and a reset back to the seed.
 */
module TicTacToe {
  import opened Wrappers

  /** The two marks: the player's heart and the pre-placed cross. */
  datatype Mark = Heart | Cross

  /** A cell holds a mark or is empty (`null`). */
  type Cell = Option<Mark>

  /** A win line: three cell indices. */
  datatype Line = Line(a: nat, b: nat, c: nat) {
    predicate Contains(i: int) {
      i == a || i == b || i == c
    }
  }

  /** `WINNING_LINES`: the three rows, the three columns, then the two diagonals. */
  const WinningLines: seq<Line> := [
    Line(0, 1, 2), Line(3, 4, 5), Line(6, 7, 8),
    Line(0, 3, 6), Line(1, 4, 7), Line(2, 5, 8),
    Line(0, 4, 8), Line(2, 4, 6)
  ]

  /** The centre cell, the only one a player may fill. */
  const Centre: nat := 4

  /**
   * `initialBoard`:  heart cross heart / cross _ cross / cross heart heart.
   * Every cell but the centre is filled.
   */
  const InitialBoard: seq<Cell> := [
    Some(Heart), Some(Cross), Some(Heart),
    Some(Cross), None,        Some(Cross),
    Some(Cross), Some(Heart), Some(Heart)
  ]

  /** What `checkWinner` reports: the winning mark and its line. */
  datatype WinResult = WinResult(winner: Mark, line: Line)

  predicate LineInBoard(line: Line) {
    line.a < 9 && line.b < 9 && line.c < 9
  }

  /** All three cells of `line` hold the same mark. */
  predicate Completes(board: seq<Cell>, line: Line)
    requires |board| == 9
  {
    LineInBoard(line) && board[line.a].Some? && board[line.a] == board[line.b] && board[line.a] == board[line.c]
  }

  /** The first completed line among `WinningLines[k..]`, with its mark. */
  function FirstWinFrom(board: seq<Cell>, k: nat): (r: Option<WinResult>)
    requires |board| == 9
    ensures r.Some? ==> Completes(board, r.value.line) && board[r.value.line.a] == Some(r.value.winner)
    decreases |WinningLines| - k
  {
    if k >= |WinningLines| then None
    else if Completes(board, WinningLines[k]) then Some(WinResult(board[WinningLines[k].a].value, WinningLines[k]))
    else FirstWinFrom(board, k + 1)
  }

  /** The specification of `checkWinner`: the first completed line in list order. */
  function FirstWin(board: seq<Cell>): Option<WinResult>
    requires |board| == 9
  {
    FirstWinFrom(board, 0)
  }

  lemma {:induction false} FirstWinFromReturnsFirst(board: seq<Cell>, k: nat, m: nat)
    requires |board| == 9 && k <= m < |WinningLines|
    requires Completes(board, WinningLines[m])
    requires forall j :: k <= j < m ==> !Completes(board, WinningLines[j])
    ensures FirstWinFrom(board, k) == Some(WinResult(board[WinningLines[m].a].value, WinningLines[m]))
    decreases m - k
  {
    if k < m {
      FirstWinFromReturnsFirst(board, k + 1, m);
    }
  }

  /** If line `m` is the first completed one, `FirstWin` reports it and its mark. */
  lemma FirstWinReturnsFirstCompleted(board: seq<Cell>, m: nat)
    requires |board| == 9 && m < |WinningLines|
    requires Completes(board, WinningLines[m])
    requires forall j :: 0 <= j < m ==> !Completes(board, WinningLines[j])
    ensures FirstWin(board) == Some(WinResult(board[WinningLines[m].a].value, WinningLines[m]))
  {
    FirstWinFromReturnsFirst(board, 0, m);
  }

  lemma {:induction false} FirstWinFromNone(board: seq<Cell>, k: nat)
    requires |board| == 9 && k <= |WinningLines|
    ensures FirstWinFrom(board, k).None? <==>
            forall j :: k <= j < |WinningLines| ==> !Completes(board, WinningLines[j])
    decreases |WinningLines| - k
  {
    if k < |WinningLines| {
      FirstWinFromNone(board, k + 1);
    }
  }

  /** `FirstWin` reports nothing exactly when no line is completed. */
  lemma FirstWinNoneIffNoCompletedLine(board: seq<Cell>)
    requires |board| == 9
    ensures FirstWin(board).None? <==>
            forall j :: 0 <= j < |WinningLines| ==> !Completes(board, WinningLines[j])
  {
    FirstWinFromNone(board, 0);
  }

  /** The board after the one legal move on the seed. */
  const WonBoard: seq<Cell> := InitialBoard[Centre := Some(Heart)]

  /** The seed has no completed line. */
  lemma SeedHasNoWinner()
    ensures FirstWin(InitialBoard) == None
  {
    FirstWinNoneIffNoCompletedLine(InitialBoard);
  }

  /**
   * Filling the centre of the seed completes exactly one line, the diagonal
   * 0-4-8 (seventh in list order), so the heart wins on that diagonal.
   */
  lemma SeedCentreWinsOnDiagonal()
    ensures forall j :: 0 <= j < |WinningLines| ==> (Completes(WonBoard, WinningLines[j]) <==> j == 6)
    ensures FirstWin(WonBoard) == Some(WinResult(Heart, Line(0, 4, 8)))
  {
    FirstWinReturnsFirstCompleted(WonBoard, 6);
  }

  /** `checkWinner`: scans the lines in order and stops at the first completed one. */
  method CheckWinner(currentBoard: array<Cell>) returns (result: Option<WinResult>)
    requires currentBoard.Length == 9
    ensures result == FirstWin(currentBoard[..])
  {
    for k := 0 to |WinningLines|
      invariant FirstWinFrom(currentBoard[..], k) == FirstWin(currentBoard[..])
    {
      var line := WinningLines[k];
      if currentBoard[line.a].Some? && currentBoard[line.a] == currentBoard[line.b]
         && currentBoard[line.a] == currentBoard[line.c]
      {
        return Some(WinResult(currentBoard[line.a].value, line));
      }
    }
    return None;
  }

  /**
   * The component's state: the board, the winner and its line, the message
   * shown, and how many confetti bursts it has requested. The game is either
   * still playing on the seed or won by the heart on the diagonal.
   */
  class Game {
    var board: array<Cell>
    var winner: Option<Mark>
    var winningLine: Option<Line>
    var gameMessage: string
    var bursts: nat
    const instructions: string
    const winMessage: string

    ghost predicate Playing()
      reads this, board
    {
      board.Length == 9 && board[..] == InitialBoard && winner == None && winningLine == None
      && gameMessage == instructions
    }

    ghost predicate Won()
      reads this, board
    {
      board.Length == 9 && board[..] == WonBoard && winner == Some(Heart)
      && winningLine == Some(Line(0, 4, 8)) && gameMessage == winMessage
    }

    ghost predicate Valid()
      reads this, board
    {
      Playing() || Won()
    }

    /** The component mounting with the slide's texts. */
    constructor (instructions: string, winMessage: string)
      ensures this.instructions == instructions && this.winMessage == winMessage
      ensures Playing() && fresh(board) && bursts == 0
    {
      this.instructions := instructions;
      this.winMessage := winMessage;
      board := new Cell[9](i requires 0 <= i < 9 => InitialBoard[i]);
      winner := None;
      winningLine := None;
      gameMessage := instructions;
      bursts := 0;
      new;
      assert board[..] == InitialBoard;
    }

    /**
     * A click on `index` is acted on: the cell is empty, nobody has won, and it
     * is the centre. On the seeded board that is the centre alone; once the
     * game is won, no click is.
     */
    predicate ClickAccepted(index: int)
      reads this, board
      requires board.Length == 9
      ensures Playing() ==> (ClickAccepted(index) <==> index == Centre)
      ensures Won() ==> !ClickAccepted(index)
    {
      !(0 <= index < 9 && board[index].Some?) && winner == None && index == Centre
    }

    /** The `disabled` attribute of the button for cell `index` (0 to 8). */
    function IsCellDisabled(index: int): (disabled: bool)
      reads this, board
      requires board.Length == 9 && 0 <= index < 9
      ensures disabled <==> !ClickAccepted(index)
    {
      winner.Some? || board[index].Some? || index != Centre
    }

    /** `handleGameEnd(result)`: record the result; celebrate only a heart win. */
    method HandleGameEnd(result: WinResult)
      modifies this`winner, this`winningLine, this`gameMessage, this`bursts
      ensures winner == Some(result.winner) && winningLine == Some(result.line)
      ensures result.winner == Heart ==> gameMessage == winMessage && bursts == old(bursts) + 1
      ensures result.winner != Heart ==> gameMessage == old(gameMessage) && bursts == old(bursts)
    {
      winner := Some(result.winner);
      winningLine := Some(result.line);
      if result.winner == Heart {
        gameMessage := winMessage;
        bursts := bursts + 1;
      }
    }

    /**
     * `handleCellClick(index)`: a rejected click changes nothing; an accepted
     * one puts a heart in a fresh copy of the board and ends the game if that
     * completes a line.
     */
    method HandleCellClick(index: int)
      requires Valid()
      modifies this
      ensures Valid()
      ensures !old(ClickAccepted(index)) ==> unchanged(this) && board[..] == old(board[..])
      ensures old(ClickAccepted(index)) ==>
                fresh(board) && board[..] == old(board[..])[Centre := Some(Heart)]
                && FirstWin(board[..]) == Some(WinResult(Heart, Line(0, 4, 8)))
                && winner == Some(Heart) && winningLine == Some(Line(0, 4, 8))
                && gameMessage == winMessage && bursts == old(bursts) + 1
      ensures old(Won()) ==> unchanged(this) && Won()
    {
      if (0 <= index < 9 && board[index].Some?) || winner.Some? || index != Centre {
        return;
      }
      var current := board;
      var newBoard := new Cell[9](i requires 0 <= i < 9 reads current => current[i]);
      newBoard[index] := Some(Heart);
      assert newBoard[..] == WonBoard;
      board := newBoard;
      var result := CheckWinner(newBoard);
      SeedCentreWinsOnDiagonal();
      if result.Some? {
        HandleGameEnd(result.value);
      }
    }

    /** `resetGame()`: the seed board again, no winner, the instructions shown. */
    method ResetGame()
      requires Valid()
      modifies this
      ensures Playing() && fresh(board) && bursts == old(bursts)
    {
      board := new Cell[9](i requires 0 <= i < 9 => InitialBoard[i]);
      winner := None;
      winningLine := None;
      gameMessage := instructions;
      assert board[..] == InitialBoard;
    }
  }
}
