// The Board component's logic (src/App.tsx): the click rule and the status line.

module Board {
  import opened Grid

  /** The (row, col) a move reports to the game. */
  datatype Location = Location(row: nat, col: nat)

  /** What a legal click reports upward: the next board and where it was played. */
  datatype Play = Play(nextSquares: Grid, location: Location)

  /** The status line above the board. */
  datatype Status = Won(winner: Cell) | Draw | Next(player: Cell)

  /** The mark written by the player to move. */
  function Mark(xIsNext: bool): (m: Cell)
    ensures m != Empty
    ensures m == X <==> xIsNext
  {
    if xIsNext then X else O
  }

  /** The location of square i: row Math.floor(i / 3), column i % 3. */
  function LocationOf(i: Index): (loc: Location)
    ensures loc.row < 3 && loc.col < 3
    ensures loc.row * 3 + loc.col == i
  {
    Location(i / 3, i % 3)
  }

  /** The square at a location on the board, the inverse of LocationOf. */
  function IndexOf(loc: Location): (i: Index)
    requires loc.row < 3 && loc.col < 3
    ensures LocationOf(i) == loc
  {
    loc.row * 3 + loc.col
  }

  /** squares.every(Boolean): no square is empty, so no empty square is left to count. */
  predicate Full(g: Grid): (b: bool)
    ensures b <==> Count(g, Empty) == 0
  {
    CountZero(g, Empty);
    forall j :: 0 <= j < |g| ==> g[j] != Empty
  }

  /**
   * handleClick: a click while the board has a winner, or on an occupied
   * square, is ignored; otherwise the board is copied, the mover's mark is
   * written into square i of the copy, and the copy is reported with the
   * square's location. The input board is never written.
   */
  method HandleClick(squares: Grid, xIsNext: bool, i: Index) returns (r: Option<Play>)
    ensures r.None? <==> Winner(squares).Some? || squares[i] != Empty
    ensures r.Some? ==> r.value.nextSquares[i] == Mark(xIsNext)
    ensures r.Some? ==> forall j :: 0 <= j < 9 && j != i ==> r.value.nextSquares[j] == squares[j]
    ensures r.Some? ==> r.value.location.row < 3 && r.value.location.col < 3
    ensures r.Some? ==> r.value.location.row * 3 + r.value.location.col == i
  {
    var winnerInfo := CalculateWinner(squares);
    if winnerInfo.Some? || squares[i] != Empty {
      return None;
    }
    var nextSquares := new Cell[9](j => if j < 9 then squares[j] else Empty);
    if xIsNext {
      nextSquares[i] := X;
    } else {
      nextSquares[i] := O;
    }
    var row := i / 3;
    var col := i % 3;
    r := Some(Play(nextSquares[..], Location(row, col)));
  }

  /**
   * The status line, in priority order: a winner, then a draw when every
   * square is filled, then the player to move.
   */
  function StatusOf(squares: Grid, xIsNext: bool): (s: Status)
    ensures s.Won? <==> Winner(squares).Some?
    ensures s.Won? ==> s.winner == Winner(squares).value.winner && s.winner != Empty
    ensures s == Draw <==> Winner(squares).None? && Full(squares)
    ensures s.Next? <==> Winner(squares).None? && !Full(squares)
    ensures s.Next? ==> s.player == Mark(xIsNext)
    ensures s.Won? ==> exists j :: 0 <= j < |Lines| && Uniform(squares, Lines[j]) && squares[Lines[j].a] == s.winner
    ensures !s.Won? ==> forall j :: 0 <= j < |Lines| ==> !Uniform(squares, Lines[j])
  {
    WinnerNone(squares);
    var winnerInfo := Winner(squares);
    if winnerInfo.Some? then Won(winnerInfo.value.winner)
    else if forall j :: 0 <= j < 9 ==> squares[j] != Empty then Draw
    else Next(Mark(xIsNext))
  }

  function CellText(c: Cell): string {
    match c
    case Empty => ""
    case X => "X"
    case O => "O"
  }

  /** The text shown for a status. */
  function StatusText(s: Status): (t: string)
    requires s.Won? ==> s.winner != Empty
    requires s.Next? ==> s.player != Empty
    ensures |t| > 0
  {
    match s
    case Won(w) => "Winner: " + CellText(w)
    case Draw => "Draw"
    case Next(p) => "Next player: " + CellText(p)
  }

  /** Different statuses show different texts. */
  lemma StatusTextInjective(s1: Status, s2: Status)
    requires s1.Won? ==> s1.winner != Empty
    requires s1.Next? ==> s1.player != Empty
    requires s2.Won? ==> s2.winner != Empty
    requires s2.Next? ==> s2.player != Empty
    requires StatusText(s1) == StatusText(s2)
    ensures s1 == s2
  {
    var t1, t2 := StatusText(s1), StatusText(s2);
    if s1.Won? && s2.Won? {
      assert t1[8] == t2[8];
    } else if s1.Next? && s2.Next? {
      assert t1[13] == t2[13];
    }
  }
}
