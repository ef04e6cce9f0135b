// The board and the win evaluator of the game (calculateWinner in src/App.tsx).

module Grid {

  datatype Option<T> = None | Some(value: T)

  /** One square: empty (null in the game) or a player's mark. */
  datatype Cell = Empty | X | O

  /** A square index, row-major: square row * 3 + col. */
  type Index = i: nat | i < 9

  /** A board snapshot: exactly nine squares. */
  type Grid = g: seq<Cell> | |g| == 9
    witness [Empty, Empty, Empty, Empty, Empty, Empty, Empty, Empty, Empty]

  const EmptyGrid: Grid := [Empty, Empty, Empty, Empty, Empty, Empty, Empty, Empty, Empty]

  /** Three square indices that form a line. */
  datatype Triple = Triple(a: Index, b: Index, c: Index)

  /** The eight lines in the order the evaluator tries them: rows, columns, diagonals. */
  const Lines: seq<Triple> := [
    Triple(0, 1, 2), Triple(3, 4, 5), Triple(6, 7, 8),
    Triple(0, 3, 6), Triple(1, 4, 7), Triple(2, 5, 8),
    Triple(0, 4, 8), Triple(2, 4, 6)
  ]

  /** What the evaluator reports: the winning mark and its line. */
  datatype WinInfo = WinInfo(winner: Cell, line: Triple)

  /**
   * The line test of calculateWinner: square a is non-empty and equal to b
   * and c, that is, one player holds all three squares of line t.
   */
  predicate Uniform(g: Grid, t: Triple): (b: bool)
    ensures b <==> (g[t.a] == g[t.b] == g[t.c] == X) || (g[t.a] == g[t.b] == g[t.c] == O)
  {
    g[t.a] != Empty && g[t.a] == g[t.b] && g[t.a] == g[t.c]
  }

  /** Square i lies on line t. */
  predicate OnLine(i: Index, t: Triple) {
    i == t.a || i == t.b || i == t.c
  }

  /** The first uniform line among Lines[k..], with its mark, or None. */
  function WinnerFrom(g: Grid, k: nat): (r: Option<WinInfo>)
    requires k <= |Lines|
    decreases |Lines| - k
    ensures r.Some? ==> r.value.line in Lines[k..]
    ensures r.Some? ==> Uniform(g, r.value.line) && r.value.winner == g[r.value.line.a]
    ensures r.Some? ==> r.value.winner != Empty
  {
    if k == |Lines| then None
    else if Uniform(g, Lines[k]) then Some(WinInfo(g[Lines[k].a], Lines[k]))
    else WinnerFrom(g, k + 1)
  }

  /**
   * The result of calculateWinner, as a function of the board: a reported
   * result is one of the eight lines, held by one player, who is the winner.
   */
  function Winner(g: Grid): (r: Option<WinInfo>)
    ensures r.Some? ==> r.value.line in Lines && Uniform(g, r.value.line)
    ensures r.Some? ==> r.value.winner == g[r.value.line.a] && r.value.winner != Empty
  {
    assert Lines[0..] == Lines;
    WinnerFrom(g, 0)
  }

  /** No two positions of Lines hold the same line. */
  lemma LinesDistinct(j1: nat, j2: nat)
    requires j1 < |Lines| && j2 < |Lines| && Lines[j1] == Lines[j2]
    ensures j1 == j2
  {
  }

  /** From line k on, the evaluator reports nothing exactly when no remaining line is uniform. */
  lemma {:induction false} WinnerFromNone(g: Grid, k: nat)
    requires k <= |Lines|
    decreases |Lines| - k
    ensures WinnerFrom(g, k).None? <==> forall j :: k <= j < |Lines| ==> !Uniform(g, Lines[j])
  {
    if k < |Lines| {
      WinnerFromNone(g, k + 1);
    }
  }

  /**
   * From line k on, the evaluator reports line j exactly when line j is
   * uniform and no line between k and j is.
   */
  lemma {:induction false} WinnerFromFirst(g: Grid, k: nat, j: nat)
    requires k <= j < |Lines|
    decreases j - k
    ensures WinnerFrom(g, k) == Some(WinInfo(g[Lines[j].a], Lines[j])) <==>
      Uniform(g, Lines[j]) && forall j' :: k <= j' < j ==> !Uniform(g, Lines[j'])
  {
    if k < j {
      WinnerFromFirst(g, k + 1, j);
      if Uniform(g, Lines[k]) && WinnerFrom(g, k) == Some(WinInfo(g[Lines[j].a], Lines[j])) {
        LinesDistinct(j, k);
      }
    }
  }

  /** calculateWinner reports nothing exactly when no line is uniform. */
  lemma WinnerNone(g: Grid)
    ensures Winner(g).None? <==> forall j :: 0 <= j < |Lines| ==> !Uniform(g, Lines[j])
  {
    WinnerFromNone(g, 0);
  }

  /**
   * calculateWinner picks the first uniform line: it reports line j exactly
   * when line j is uniform and no earlier line is.
   */
  lemma WinnerIsFirstUniform(g: Grid, j: nat)
    requires j < |Lines|
    ensures Winner(g) == Some(WinInfo(g[Lines[j].a], Lines[j])) <==>
      Uniform(g, Lines[j]) && forall j' :: 0 <= j' < j ==> !Uniform(g, Lines[j'])
  {
    WinnerFromFirst(g, 0, j);
  }

  /**
   * calculateWinner: tries the eight lines in order and returns the first
   * whose three squares hold the same non-empty mark.
   */
  method CalculateWinner(squares: Grid) returns (r: Option<WinInfo>)
    ensures r == Winner(squares)
  {
    for i := 0 to |Lines|
      invariant WinnerFrom(squares, i) == Winner(squares)
    {
      var a, b, c := Lines[i].a, Lines[i].b, Lines[i].c;
      if squares[a] != Empty && squares[a] == squares[b] && squares[a] == squares[c] {
        return Some(WinInfo(squares[a], Triple(a, b, c)));
      }
    }
    return None;
  }

  /** Number of squares of s that hold c. */
  function Count(s: seq<Cell>, c: Cell): (n: nat)
    ensures n <= |s|
  {
    if s == [] then 0 else (if s[0] == c then 1 else 0) + Count(s[1..], c)
  }

  /** Writing v over square i moves one square from the count of s[i] to that of v. */
  lemma {:induction false} CountUpdate(s: seq<Cell>, i: nat, v: Cell, c: Cell)
    requires i < |s|
    ensures Count(s[i := v], c) + (if s[i] == c then 1 else 0) == Count(s, c) + (if v == c then 1 else 0)
  {
    if i > 0 {
      assert s[i := v][1..] == s[1..][i - 1 := v];
      CountUpdate(s[1..], i - 1, v, c);
    }
  }

  /** A value counts zero exactly when it occurs nowhere. */
  lemma {:induction false} CountZero(s: seq<Cell>, c: Cell)
    ensures Count(s, c) == 0 <==> forall j :: 0 <= j < |s| ==> s[j] != c
  {
    if s != [] {
      CountZero(s[1..], c);
      assert forall j :: 1 <= j < |s| ==> s[j] == s[1..][j - 1];
    }
  }

  /** Every square holds one of the three cell values. */
  lemma {:induction false} CountTotal(s: seq<Cell>)
    ensures Count(s, X) + Count(s, O) + Count(s, Empty) == |s|
  {
    if s != [] {
      CountTotal(s[1..]);
    }
  }

  /** A uniform line needs three squares of its mark. */
  lemma UniformNeedsThree(g: Grid, t: Triple)
    requires t in Lines && Uniform(g, t)
    ensures Count(g, g[t.a]) >= 3
  {
    var m := g[t.a];
    assert t.a != t.b && t.a != t.c && t.b != t.c;
    var g1 := g[t.a := Empty];
    var g2 := g1[t.b := Empty];
    var g3 := g2[t.c := Empty];
    CountUpdate(g, t.a, Empty, m);
    CountUpdate(g1, t.b, Empty, m);
    CountUpdate(g2, t.c, Empty, m);
  }
}
