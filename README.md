# Tic-tac-toe game logic, modelled in Dafny

This project models the game logic of a React tic-tac-toe app (`src/App.tsx`):

- the win evaluator `calculateWinner`;
- the Board's click rule `handleClick` and its status line;
- the Game session: the history of board snapshots, the pointer `currentMove` and
  the sort flag `isAscending`, with `handlePlay`, `jumpTo`, `toggleSortOrder`,
  `xIsNext` and `sortedMoves`.

Files:

- `grid.dfy`, module `Grid`. A square is `Empty | X | O` (the app stores `null`, `'X'`, `'O'`).
  A board is a sequence of exactly nine squares, row-major.
  This module holds the eight lines in the app's order and `CalculateWinner`.
  `CalculateWinner` is a loop with an early return, proved against the specification function `Winner`.
  It also holds a square counter used by the history lemmas.
- `board.dfy`, module `Board`. `HandleClick` copies the board into a fresh array and writes one slot of the copy.
  It reports the new board with the location `(i / 3, i % 3)`, or reports nothing for an ignored click.
  `StatusOf` gives the status in the app's priority order.
  `StatusText` gives the exact text shown for a status.
- `session.dfy`, module `Session`. The class `Game` has the three session fields and one method per handler.
  `ValidHistory` says that a history is a legal game.
  A legal game starts from the empty board, and each later entry is a legal click from the entry before it, with the mark fixed by the parity of its position.
  The lemmas about `ValidHistory` hold for every history a session can reach.
  `ClickSquare` wires `handleClick` to `handlePlay`, as the Game does when it renders the Board.
  It shows that every click keeps the session a legal game.
- `scenarios.dfy`, module `Scenarios`. Client methods play three short games from a new session, using only the contracts above.
  In one, X takes the centre and O a corner, and X is next.
  In another, X fills the top row in five clicks, wins with line (0, 1, 2), and a later click is ignored.
  The five clicks are split over three helper methods.
  In the third, the player jumps back one move and plays on, and the history is cut.

Two invariants are kept apart. `WellFormed` (the pointer indexes an existing entry) holds after every method, whatever `handlePlay` receives.
`Valid` (a well-formed legal game) is kept by every method when `handlePlay` receives what a legal click produces.
`handlePlay` does not check its arguments (they are typed `any`), so its contract only says that it keeps `Valid` for legal moves.

Two facts about `calculateWinner` hold only with a qualification:

- A board with fewer than five marks can still have a winner, for example three X marks in a row and nothing else.
  No board a session can reach is like that: see `Session.NoWinnerBeforeFifthMove`.
- A board with one line filled reports that line only when no earlier line in the fixed order is uniform.
  `Grid.WinnerIsFirstUniform` states the exact condition.

## Model

| member | source | states |
|---|---|---|
| `Grid.CalculateWinner` | src/App.tsx:145-163 | the loop over the eight lines returns exactly `Winner(squares)`, the first uniform line in the fixed order, or nothing |
| `Grid.WinnerFrom` | src/App.tsx:156-161 | a reported result names one of the lines still to try; its three squares hold the same non-empty mark, and that mark is the reported winner |
| `Grid.WinnerFromNone` | src/App.tsx:156-162 | from line k on, nothing is reported exactly when no remaining line is uniform |
| `Grid.WinnerFromFirst` | src/App.tsx:156-161 | from line k on, line j is reported exactly when it is uniform and no line between k and j is |
| `Grid.Uniform` | src/App.tsx:158 | the line test holds exactly when all three squares of the line are X, or all three are O |
| `Grid.Winner` | src/App.tsx:145-163 | a reported result is one of the eight lines, its three squares hold one player's mark, and that mark is the reported winner |
| `Grid.WinnerNone` | src/App.tsx:156-162 | over the whole board, nothing is reported exactly when no line is uniform |
| `Grid.WinnerIsFirstUniform` | src/App.tsx:156-161 | over the whole board, line j is the reported line exactly when it is uniform and no earlier line is |
| `Grid.UniformNeedsThree` | src/App.tsx:158 | a uniform line puts at least three squares of its mark on the board |
| `Board.Mark` | src/App.tsx:25-29 | the mark written is never empty, and it is X exactly when `xIsNext` holds |
| `Board.LocationOf` | src/App.tsx:32-33 | the reported row and column are below 3 and `row * 3 + col` is the clicked square |
| `Board.IndexOf` | src/App.tsx:32-33 | a row and column on the board name the square whose location they are (the inverse of `LocationOf`) |
| `Board.Full` | src/App.tsx:44 | every square is filled exactly when no square counts as empty |
| `Board.HandleClick` | src/App.tsx:20-35 | the click is ignored exactly when the board has a winner or the square is occupied; otherwise the new board has the mover's mark at i and equals the input elsewhere, and the location satisfies `row, col < 3` and `row * 3 + col == i` |
| `Board.StatusOf` | src/App.tsx:41-48 | "Winner" exactly when the board has a winner, even on a full board, and then some line of that mark is uniform; "Draw" exactly when there is no winner and every square is filled; otherwise "Next player" with the mover's mark; only "Winner" has a uniform line |
| `Board.StatusText` | src/App.tsx:43-47 | every status shows a non-empty text |
| `Board.StatusTextInjective` | src/App.tsx:43-47 | different statuses show different texts |
| `Session.MarkAt` | src/App.tsx:81 | X moves from even positions and O from odd ones |
| `Session.ValidHistory` | src/App.tsx:78-88 | the history invariant kept by the constructor and by every session method: the first entry is the empty board with no location, and each later entry is a legal move from the one before it |
| `Session.MarksAlternate` | src/App.tsx:81 | consecutive positions have different movers, and the move made from position n is X exactly when n + 1 is odd |
| `Session.MoveFillsOneSquare` | src/App.tsx:24-29 | each history entry after the first differs from the one before in exactly the square at its location, which was empty and now holds X after an odd number of moves and O after an even number |
| `Session.ValidBranch` | src/App.tsx:85 | cutting a legal game after any position and appending a legal move from that position gives a legal game |
| `Session.MoveCounts` | src/App.tsx:24-29 | a legal move adds one mark of the mover, removes one empty square and leaves every other count alone |
| `Session.MarkCounts` | src/App.tsx:78-88 | after k moves of a legal game, X has placed ceil(k/2) marks, O has placed floor(k/2), and 9 - k squares are empty |
| `Session.HistoryAtMostTen` | src/App.tsx:84-88 | a legal game's history holds at most ten boards |
| `Session.NoWinnerBeforeFifthMove` | src/App.tsx:145-163 | no board reached in fewer than five moves has a winner |
| `Session.OnlyLastBoardWon` | src/App.tsx:21-23 | only the last board of a legal game can have a winner, because no move is accepted on a won board |
| `Session.UniformLinesAgree` | src/App.tsx:156-161 | on a reachable board every uniform line holds the mark of the last move, so the order of the lines never decides who won |
| `Session.MoveOrder` | src/App.tsx:100 | the order has one entry per history index: index j when ascending, n - 1 - j otherwise; it is a permutation of 0 .. n-1 |
| `Session.ReverseProperties` | src/App.tsx:100 | reversal keeps the length and the elements and mirrors the positions |
| `Session.Game.constructor` | src/App.tsx:78-80 | a new session holds only the empty board, points at it and sorts ascending |
| `Session.Game.XIsNext` | src/App.tsx:81 | the mark of the player to move is the mark for the pointer's position: X at even positions, O at odd ones |
| `Session.Game.XIsNextIffEqualCounts` | src/App.tsx:81 | on a legal game, X is next exactly when both players have placed the same number of marks |
| `Session.Game.CurrentSquares` | src/App.tsx:82 | on a legal game, the board at the pointer has no winner whenever a later entry follows it, because no move is accepted on a won board |
| `Session.Game.SortedMoves` | src/App.tsx:100 | the listed moves are the history indices, ascending or in reverse, and they form a permutation of the indices |
| `Session.Game.HandlePlay` | src/App.tsx:84-88 | the new history is the old one up to the pointer followed by the new record; its length is the old pointer plus 2; the pointer moves to the last entry; earlier entries and the sort flag are unchanged; a legal move keeps the session a legal game |
| `Session.Game.JumpTo` | src/App.tsx:90-92 | only the pointer changes, to the requested index; history and sort flag are unchanged |
| `Session.Game.ToggleSortOrder` | src/App.tsx:95-97 | only the sort flag changes, to its negation |
| `Session.Game.ClickSquare` | src/App.tsx:133 | an ignored click changes nothing; a legal click branches the history with the mover's mark in the clicked square and its location, and advances the pointer by one; the session stays a legal game |

## Left out

- Rendering: the `Square` component, the JSX markup, CSS class choice and the highlight of the winning squares (src/App.tsx:3-13, 50-74, 102-142) are presentation.
- The jump-list labels "Go to move #k (r, c)", "Go to game start" and "You are at move #k" (src/App.tsx:102-128) are presentation text. In the model, entry 0 is the only entry whose location is `None`.
- React's `useState` is modelled as three plain fields of `Game`, updated in place. Re-rendering is not modelled.
- `Session.Game.JumpTo` requires the target index to exist. The code has no bounds check, and its only caller passes an index of the listed history.
- `Session.Game.HandlePlay` takes a nine-square board and a location. The code types both arguments as `any`, and its only caller passes what `handleClick` produces.
- Board.HandleClick: the square index is a number 0..8, as the Board's render passes. A click outside the board cannot happen.
- Board.StatusOf: the status is a datatype, and `Board.StatusText` gives the exact text. String concatenation with JavaScript's other values is not modelled.
