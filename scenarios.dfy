// Client code: three short games played against the contracts of Session.Game
// and Board alone, showing what a caller of the session can conclude.

module Scenarios {
  import opened Grid
  import opened Board
  import opened Session

  /** X takes the centre, O a corner: X is to move and the history holds three boards. */
  method CentreThenCorner() {
    var game := new Game();
    game.ClickSquare(4);
    game.ClickSquare(0);
    assert |game.history| == 3 && game.currentMove == 2;
    var squares := game.CurrentSquares();
    assert squares == [O, Empty, Empty, Empty, X, Empty, Empty, Empty, Empty];
    WinnerNone(squares);
    assert !Full(squares);
    assert StatusOf(squares, game.XIsNext()) == Next(X);
  }

  /** On an empty board, X plays 0 and O plays 3. */
  method PlayTopRowStart(game: Game)
    requires game.Valid() && game.history == [Start] && game.currentMove == 0
    modifies game
    ensures game.Valid() && game.currentMove == 2
    ensures game.CurrentSquares() == EmptyGrid[0 := X][3 := O]
  {
    game.ClickSquare(0);
    assert game.CurrentSquares() == EmptyGrid[0 := X];
    NoWinnerBeforeFifthMove(game.history, 1);
    game.ClickSquare(3);
  }

  /** From X on 0 and O on 3, X plays 1. */
  method PlayTopRowMiddle(game: Game)
    requires game.Valid() && game.currentMove == 2
    requires game.CurrentSquares() == EmptyGrid[0 := X][3 := O]
    modifies game
    ensures game.Valid() && game.currentMove == 3
    ensures game.CurrentSquares() == EmptyGrid[0 := X][3 := O][1 := X]
  {
    NoWinnerBeforeFifthMove(game.history, 2);
    game.ClickSquare(1);
  }

  /** From X on 0 and 1 and O on 3, O plays 4 and X completes the row with 2. */
  method PlayTopRowEnd(game: Game)
    requires game.Valid() && game.currentMove == 3
    requires game.CurrentSquares() == EmptyGrid[0 := X][3 := O][1 := X]
    modifies game
    ensures game.Valid() && game.currentMove == 5
    ensures game.CurrentSquares() == EmptyGrid[0 := X][3 := O][1 := X][4 := O][2 := X]
  {
    NoWinnerBeforeFifthMove(game.history, 3);
    game.ClickSquare(4);
    assert game.CurrentSquares() == EmptyGrid[0 := X][3 := O][1 := X][4 := O];
    NoWinnerBeforeFifthMove(game.history, 4);
    game.ClickSquare(2);
  }

  /**
   * From a new game, X plays 0, 1 and 2 against O's 3 and 4: X has won with
   * line (0, 1, 2), the status says so, and a later click is ignored.
   */
  method TopRowWin() {
    var game := new Game();
    PlayTopRowStart(game);
    PlayTopRowMiddle(game);
    PlayTopRowEnd(game);
    var squares := game.CurrentSquares();
    assert Uniform(squares, Lines[0]);
    WinnerIsFirstUniform(squares, 0);
    assert Winner(squares) == Some(WinInfo(X, Triple(0, 1, 2)));
    assert StatusOf(squares, game.XIsNext()) == Won(X);
    game.ClickSquare(8);
    assert game.CurrentSquares() == squares && game.currentMove == 5;
  }

  /** Reversing the list leaves the game alone; jumping back to move 1 and playing on drops the later move. */
  method BranchAfterJump() {
    var game := new Game();
    game.ClickSquare(4);
    assert game.CurrentSquares() == EmptyGrid[4 := X];
    NoWinnerBeforeFifthMove(game.history, 1);
    game.ClickSquare(0);
    assert |game.history| == 3;
    game.ToggleSortOrder();
    assert game.SortedMoves() == [2, 1, 0];
    game.JumpTo(1);
    assert game.CurrentSquares() == EmptyGrid[4 := X];
    game.ClickSquare(2);
    assert |game.history| == 3 && game.currentMove == 2;
    assert game.CurrentSquares() == EmptyGrid[4 := X][2 := O];
  }
}
