// The Game component's session state (src/App.tsx): the history of board
// snapshots, the pointer to the displayed move and the list's sort order.

module Session {
  import opened Grid
  import opened Board

  /** One history entry: a board and the location of the move that made it. */
  datatype MoveRecord = MoveRecord(squares: Grid, location: Option<Location>)

  /** The first history entry: the empty board, with no location. */
  const Start: MoveRecord := MoveRecord(EmptyGrid, None)

  /** The player to move from history position n: X at even positions. */
  function MarkAt(n: nat): (m: Cell)
    ensures m == X <==> n % 2 == 0
    ensures m == O <==> n % 2 == 1
  {
    Mark(n % 2 == 0)
  }

  /** rec writes the mark of position n into an empty square of prev, at its location. */
  predicate IsPlacement(prev: Grid, n: nat, rec: MoveRecord) {
    && rec.location.Some?
    && rec.location.value.row < 3 && rec.location.value.col < 3
    && prev[IndexOf(rec.location.value)] == Empty
    && rec.squares == prev[IndexOf(rec.location.value) := MarkAt(n)]
  }

  /** rec is what a legal click from the board prev, at position n, records. */
  predicate IsMoveFrom(prev: Grid, n: nat, rec: MoveRecord) {
    Winner(prev).None? && IsPlacement(prev, n, rec)
  }

  /**
   * A history that a session can reach: the empty board with no location,
   * then one legal move per entry.
   */
  predicate ValidHistory(h: seq<MoveRecord>) {
    && |h| >= 1
    && h[0] == Start
    && forall k :: 0 <= k < |h| - 1 ==> IsMoveFrom(h[k].squares, k, h[k + 1])
  }

  /** The move order of the jump list: 0 .. n-1, ascending or reversed. */
  function MoveOrder(n: nat, ascending: bool): (r: seq<nat>)
    ensures |r| == n
    ensures forall j :: 0 <= j < n ==> r[j] == if ascending then j else n - 1 - j
    ensures multiset(r) == multiset(Indices(n))
  {
    ReverseProperties(Indices(n));
    if ascending then Indices(n) else Reverse(Indices(n))
  }

  function Indices(n: nat): (r: seq<nat>)
    ensures |r| == n && forall j :: 0 <= j < n ==> r[j] == j
  {
    seq(n, j requires 0 <= j => j)
  }

  function Reverse(s: seq<nat>): seq<nat> {
    if s == [] then [] else Reverse(s[1..]) + [s[0]]
  }

  /** Reverse mirrors the positions and keeps the elements. */
  lemma {:induction false} ReverseProperties(s: seq<nat>)
    ensures |Reverse(s)| == |s|
    ensures forall j :: 0 <= j < |s| ==> Reverse(s)[j] == s[|s| - 1 - j]
    ensures multiset(Reverse(s)) == multiset(s)
  {
    if s != [] {
      ReverseProperties(s[1..]);
      assert s == [s[0]] + s[1..];
    }
  }

  /** The empty board holds nine empty squares and no marks. */
  lemma CountEmptyGrid()
    ensures Count(EmptyGrid, X) == 0 && Count(EmptyGrid, O) == 0 && Count(EmptyGrid, Empty) == 9
  {
    CountTotal(EmptyGrid);
    CountZero(EmptyGrid, X);
    CountZero(EmptyGrid, O);
  }

  /**
   * Entry k of a history differs from entry k - 1 in exactly the square at its
   * location, which was empty and now holds X when k is odd and O when k is even.
   */
  lemma MoveFillsOneSquare(h: seq<MoveRecord>, k: nat)
    requires ValidHistory(h) && 1 <= k < |h|
    ensures h[k].location.Some? && h[k].location.value.row < 3 && h[k].location.value.col < 3
    ensures var i := IndexOf(h[k].location.value);
      && h[k - 1].squares[i] == Empty
      && h[k].squares[i] == MarkAt(k - 1)
      && forall j :: 0 <= j < 9 && j != i ==> h[k].squares[j] == h[k - 1].squares[j]
    ensures MarkAt(k - 1) == X <==> k % 2 == 1
  {
    assert IsMoveFrom(h[k - 1].squares, k - 1, h[k]);
    PlacementFillsOneSquare(h[k - 1].squares, k - 1, h[k]);
    MarksAlternate(k - 1);
  }

  /** The players alternate: the mover at n + 1 is not the mover at n. */
  lemma MarksAlternate(n: nat)
    ensures MarkAt(n + 1) != MarkAt(n)
    ensures MarkAt(n) == X <==> (n + 1) % 2 == 1
  {
  }

  lemma PlacementFillsOneSquare(prev: Grid, n: nat, rec: MoveRecord)
    requires IsPlacement(prev, n, rec)
    ensures var i := IndexOf(rec.location.value);
      && prev[i] == Empty
      && rec.squares[i] == MarkAt(n)
      && forall j :: 0 <= j < 9 && j != i ==> rec.squares[j] == prev[j]
  {
  }

  /** Truncating after position n and appending a legal move from n keeps a history reachable. */
  lemma ValidBranch(h: seq<MoveRecord>, n: nat, rec: MoveRecord)
    requires ValidHistory(h) && n < |h| && IsMoveFrom(h[n].squares, n, rec)
    ensures ValidHistory(h[..n + 1] + [rec])
  {
    var h' := h[..n + 1] + [rec];
    forall k | 0 <= k < |h'| - 1
      ensures IsMoveFrom(h'[k].squares, k, h'[k + 1])
    {
      if k < n {
        assert h'[k] == h[k] && h'[k + 1] == h[k + 1];
      }
    }
  }

  /**
   * After k moves X has placed ceil(k/2) marks and O floor(k/2), and the
   * other squares are empty.
   */
  lemma {:induction false} MarkCounts(h: seq<MoveRecord>, k: nat)
    requires ValidHistory(h) && k < |h|
    ensures Count(h[k].squares, X) == (k + 1) / 2
    ensures Count(h[k].squares, O) == k / 2
    ensures Count(h[k].squares, Empty) == 9 - k
  {
    if k == 0 {
      CountEmptyGrid();
    } else {
      MarkCounts(h, k - 1);
      assert IsMoveFrom(h[k - 1].squares, k - 1, h[k]);
      MoveCounts(h[k - 1].squares, k - 1, h[k], X);
      MoveCounts(h[k - 1].squares, k - 1, h[k], O);
      MoveCounts(h[k - 1].squares, k - 1, h[k], Empty);
    }
  }

  /** A legal move turns one empty square into the mover's mark; no other count changes. */
  lemma MoveCounts(prev: Grid, n: nat, rec: MoveRecord, c: Cell)
    requires IsPlacement(prev, n, rec)
    ensures Count(rec.squares, c) == Count(prev, c) + (if c == MarkAt(n) then 1 else 0) - (if c == Empty then 1 else 0)
  {
    CountUpdate(prev, IndexOf(rec.location.value), MarkAt(n), c);
  }

  /** Every move fills an empty square, so a history holds at most ten boards. */
  lemma HistoryAtMostTen(h: seq<MoveRecord>)
    requires ValidHistory(h)
    ensures |h| <= 10
  {
    MarkCounts(h, |h| - 1);
  }

  /** Nobody can have a line before the fifth move. */
  lemma NoWinnerBeforeFifthMove(h: seq<MoveRecord>, k: nat)
    requires ValidHistory(h) && k < |h| && k < 5
    ensures Winner(h[k].squares).None?
  {
    var g := h[k].squares;
    if Winner(g).Some? {
      var w := Winner(g).value;
      assert Lines[0..] == Lines;
      assert w.line in Lines && Uniform(g, w.line);
      UniformNeedsThree(g, w.line);
      assert Count(g, w.winner) >= 3;
      MarkCounts(h, k);
    }
  }

  /** Only the last board of a history can have a winner: play stops at the first win. */
  lemma OnlyLastBoardWon(h: seq<MoveRecord>, k: nat)
    requires ValidHistory(h) && k < |h| - 1
    ensures Winner(h[k].squares).None?
  {
    assert IsMoveFrom(h[k].squares, k, h[k + 1]);
  }

  /**
   * On a reachable board all uniform lines carry the same mark, the mark of
   * the last move, so the order in which lines are tried never decides who won.
   */
  lemma UniformLinesAgree(h: seq<MoveRecord>, k: nat, j1: nat, j2: nat)
    requires ValidHistory(h) && k < |h|
    requires j1 < |Lines| && j2 < |Lines|
    requires Uniform(h[k].squares, Lines[j1]) && Uniform(h[k].squares, Lines[j2])
    ensures k > 0
    ensures h[k].squares[Lines[j1].a] == h[k].squares[Lines[j2].a] == MarkAt(k - 1)
  {
    if k > 0 {
      var prev := h[k - 1].squares;
      assert IsMoveFrom(prev, k - 1, h[k]);
      WinnerNone(prev);
    }
  }

  /** The game session: useState's history, currentMove and isAscending. */
  class Game {
    var history: seq<MoveRecord>
    var currentMove: nat
    var isAscending: bool

    /** The pointer indexes an existing entry. */
    predicate WellFormed()
      reads this
    {
      |history| >= 1 && currentMove < |history|
    }

    /** Well formed, and the history is a legal game from the empty board. */
    predicate Valid()
      reads this
    {
      WellFormed() && ValidHistory(history)
    }

    /** A new session: only the empty board, at move 0, sorted ascending. */
    constructor ()
      ensures Valid()
      ensures history == [Start] && currentMove == 0 && isAscending
    {
      history := [Start];
      currentMove := 0;
      isAscending := true;
    }

    /**
     * The board on display. In a legal game, a board before the last entry
     * (after a jump back) never has a winner, so the Board accepts clicks on it.
     */
    function CurrentSquares(): (r: Grid)
      reads this
      requires WellFormed()
      ensures Valid() && currentMove < |history| - 1 ==> Winner(r).None?
    {
      assert Valid() && currentMove < |history| - 1 ==>
        IsMoveFrom(history[currentMove].squares, currentMove, history[currentMove + 1]);
      history[currentMove].squares
    }

    /** xIsNext: the player to move is the mover that the history's parity fixes. */
    function XIsNext(): (b: bool)
      reads this
      ensures Mark(b) == MarkAt(currentMove)
    {
      currentMove % 2 == 0
    }

    /** On a legal game X is next exactly when both players have placed the same number of marks. */
    lemma XIsNextIffEqualCounts()
      requires Valid()
      ensures XIsNext() <==> Count(CurrentSquares(), X) == Count(CurrentSquares(), O)
    {
      MarkCounts(history, currentMove);
    }

    /** sortedMoves: the history indices, in ascending order or reversed. */
    function SortedMoves(): (r: seq<nat>)
      reads this
      ensures |r| == |history|
      ensures forall j :: 0 <= j < |r| ==> r[j] < |history|
      ensures isAscending ==> forall j :: 0 <= j < |r| ==> r[j] == j
      ensures !isAscending ==> forall j :: 0 <= j < |r| ==> r[j] == |history| - 1 - j
      ensures multiset(r) == multiset(Indices(|history|))
    {
      MoveOrder(|history|, isAscending)
    }

    /**
     * handlePlay: drop the entries after the pointer, append the new record
     * and point at it. The session stays a legal game when the record is a
     * legal move from the displayed board.
     */
    method HandlePlay(nextSquares: Grid, location: Location)
      requires WellFormed()
      modifies this`history, this`currentMove
      ensures WellFormed()
      ensures history == old(history[..currentMove + 1]) + [MoveRecord(nextSquares, Some(location))]
      ensures |history| == old(currentMove) + 2
      ensures currentMove == |history| - 1
      ensures forall k :: 0 <= k <= old(currentMove) ==> history[k] == old(history[k])
      ensures old(Valid()) && IsMoveFrom(old(CurrentSquares()), old(currentMove), MoveRecord(nextSquares, Some(location)))
        ==> Valid()
    {
      if Valid() && IsMoveFrom(CurrentSquares(), currentMove, MoveRecord(nextSquares, Some(location))) {
        ValidBranch(history, currentMove, MoveRecord(nextSquares, Some(location)));
      }
      var nextHistory := history[..currentMove + 1] + [MoveRecord(nextSquares, Some(location))];
      history := nextHistory;
      currentMove := |nextHistory| - 1;
    }

    /** jumpTo: move the pointer only. */
    method JumpTo(nextMove: nat)
      requires WellFormed() && nextMove < |history|
      modifies this`currentMove
      ensures WellFormed()
      ensures currentMove == nextMove
      ensures history == old(history) && isAscending == old(isAscending)
      ensures old(Valid()) ==> Valid()
    {
      currentMove := nextMove;
    }

    /** toggleSortOrder: flip the order of the jump list only. */
    method ToggleSortOrder()
      modifies this`isAscending
      ensures isAscending == !old(isAscending)
      ensures history == old(history) && currentMove == old(currentMove)
    {
      isAscending := !isAscending;
    }

    /**
     * A click on square i of the displayed board, as the Board hands it to
     * handlePlay: an ignored click changes nothing; a legal one branches the
     * history with the mover's mark in square i. Either way the session
     * stays a legal game.
     */
    method ClickSquare(i: Index)
      requires Valid()
      modifies this`history, this`currentMove
      ensures Valid()
      ensures isAscending == old(isAscending)
      ensures Winner(old(CurrentSquares())).Some? || old(CurrentSquares())[i] != Empty ==>
        history == old(history) && currentMove == old(currentMove)
      ensures Winner(old(CurrentSquares())).None? && old(CurrentSquares())[i] == Empty ==>
        && history == old(history[..currentMove + 1])
             + [MoveRecord(old(CurrentSquares()[i := MarkAt(currentMove)]), Some(LocationOf(i)))]
        && currentMove == old(currentMove) + 1
    {
      var play := HandleClick(CurrentSquares(), XIsNext(), i);
      if play.Some? {
        assert play.value.location == LocationOf(i);
        assert play.value.nextSquares == CurrentSquares()[i := MarkAt(currentMove)];
        HandlePlay(play.value.nextSquares, play.value.location);
      }
    }
  }
}
