/** The rules of the game as values: the 3×3 grid of marks, its eight
    lines, the win and full-board tests, one call of `make_move` as a
    transition between game states, and the invariant every reachable
    state keeps. The class in module Game is proved against these. */
module Rules {

  datatype Option<T> = None | Some(value: T)

  /** An empty cell, and also the winner recorded while nobody has won. */
  const Empty: char := ' '
  const X: char := 'X'
  const O: char := 'O'
  /** The winner recorded for a full board without a line. */
  const Draw: char := 'D'

  /** Rows of marks, read `g[row][col]`. */
  type Grid = seq<seq<char>>

  predicate IsGrid(g: Grid) {
    |g| == 3 && forall r :: 0 <= r < 3 ==> |g[r]| == 3
  }

  /** The coordinate check of `make_move`: `0 <= i && i <= 2`. */
  predicate InRange(i: int) {
    0 <= i <= 2
  }

  function EmptyGrid(): (g: Grid)
    ensures IsGrid(g)
    ensures forall r, c :: InRange(r) && InRange(c) ==> g[r][c] == Empty
  {
    [[Empty, Empty, Empty], [Empty, Empty, Empty], [Empty, Empty, Empty]]
  }

  /** The grid with one cell overwritten. */
  function Place(g: Grid, row: int, col: int, v: char): (h: Grid)
    requires IsGrid(g) && InRange(row) && InRange(col)
    ensures IsGrid(h)
    ensures h[row][col] == v
    ensures forall r, c :: InRange(r) && InRange(c) && (r != row || c != col) ==> h[r][c] == g[r][c]
  {
    g[row := g[row][col := v]]
  }

  /** Two grids that agree on every cell are the same grid. */
  lemma GridsEqual(g: Grid, h: Grid)
    requires IsGrid(g) && IsGrid(h)
    requires forall r, c :: 0 <= r < 3 && 0 <= c < 3 ==> g[r][c] == h[r][c]
    ensures g == h
  {
    assert g[0] == h[0] && g[1] == h[1] && g[2] == h[2];
  }

  // ---------------------------------------------------------------------
  // Lines and wins

  datatype Pos = Pos(row: int, col: int)

  predicate OnBoard(p: Pos) {
    InRange(p.row) && InRange(p.col)
  }

  datatype Line = Line(a: Pos, b: Pos, c: Pos)

  /** The eight lines in the order `check_win` tries them: rows 0 to 2,
      columns 0 to 2, the main diagonal, the anti-diagonal. */
  function LineAt(k: int): (l: Line)
    requires 0 <= k < 8
    ensures OnBoard(l.a) && OnBoard(l.b) && OnBoard(l.c)
    ensures l.a != l.b && l.b != l.c && l.a != l.c
  {
    if k < 3 then Line(Pos(k, 0), Pos(k, 1), Pos(k, 2))
    else if k < 6 then Line(Pos(0, k - 3), Pos(1, k - 3), Pos(2, k - 3))
    else if k == 6 then Line(Pos(0, 0), Pos(1, 1), Pos(2, 2))
    else Line(Pos(0, 2), Pos(1, 1), Pos(2, 0))
  }

  function At(g: Grid, p: Pos): char
    requires IsGrid(g) && OnBoard(p)
  {
    g[p.row][p.col]
  }

  predicate Complete(g: Grid, l: Line, p: char)
    requires IsGrid(g) && OnBoard(l.a) && OnBoard(l.b) && OnBoard(l.c)
  {
    At(g, l.a) == p && At(g, l.b) == p && At(g, l.c) == p
  }

  /** `p` holds all three cells of one of the eight lines. */
  predicate Wins(g: Grid, p: char)
    requires IsGrid(g)
  {
    exists k :: 0 <= k < 8 && Complete(g, LineAt(k), p)
  }

  /** No cell is empty: the test of `check_draw`. */
  predicate Full(g: Grid)
    requires IsGrid(g)
  {
    forall r, c :: 0 <= r < 3 && 0 <= c < 3 ==> g[r][c] != Empty
  }

  lemma WinsByLines(g: Grid, p: char)
    requires IsGrid(g)
    ensures Wins(g, p) <==>
      Complete(g, LineAt(0), p) || Complete(g, LineAt(1), p) || Complete(g, LineAt(2), p) ||
      Complete(g, LineAt(3), p) || Complete(g, LineAt(4), p) || Complete(g, LineAt(5), p) ||
      Complete(g, LineAt(6), p) || Complete(g, LineAt(7), p)
  {
  }

  /** Three cells `(r0 + t*dr, c0 + t*dc)`, t = 0, 1, 2, one step apart in
      one of the eight directions, all on the board and all holding `p`. */
  predicate Streak(g: Grid, p: char, r0: int, c0: int, dr: int, dc: int)
    requires IsGrid(g)
  {
    && -1 <= dr <= 1 && -1 <= dc <= 1 && (dr != 0 || dc != 0)
    && InRange(r0) && InRange(c0) && InRange(r0 + 2 * dr) && InRange(c0 + 2 * dc)
    && g[r0][c0] == p && g[r0 + dr][c0 + dc] == p && g[r0 + 2 * dr][c0 + 2 * dc] == p
  }

  /** Three in a row in any direction: a definition of winning that does
      not depend on the table of lines. */
  ghost predicate ThreeInARow(g: Grid, p: char)
    requires IsGrid(g)
  {
    exists r0, c0, dr, dc :: Streak(g, p, r0, c0, dr, dc)
  }

  /** The eight lines tried by `check_win` are exactly the straight runs of
      three on a 3×3 board. */
  lemma WinsIffThreeInARow(g: Grid, p: char)
    requires IsGrid(g)
    ensures Wins(g, p) <==> ThreeInARow(g, p)
  {
    if Wins(g, p) {
      var k :| 0 <= k < 8 && Complete(g, LineAt(k), p);
      if k < 3 {
        assert Streak(g, p, k, 0, 0, 1);
      } else if k < 6 {
        assert Streak(g, p, 0, k - 3, 1, 0);
      } else if k == 6 {
        assert Streak(g, p, 0, 0, 1, 1);
      } else {
        assert Streak(g, p, 0, 2, 1, -1);
      }
    }
    if ThreeInARow(g, p) {
      var r0, c0, dr, dc :| Streak(g, p, r0, c0, dr, dc);
      var k;
      if dr == 0 {
        k := r0;
      } else if dc == 0 {
        k := 3 + c0;
      } else if dr == dc {
        k := 6;
      } else {
        k := 7;
      }
      assert Complete(g, LineAt(k), p);
    }
  }

  /** Placing `v` cannot give anyone other than `v` a new line. */
  lemma PlaceCreatesNoWinFor(g: Grid, row: int, col: int, v: char, q: char)
    requires IsGrid(g) && InRange(row) && InRange(col) && v != q
    ensures Wins(Place(g, row, col, v), q) ==> Wins(g, q)
  {
  }

  // ---------------------------------------------------------------------
  // Counting marks

  function CountIn(cells: seq<char>, p: char): (n: nat)
    ensures n <= |cells|
  {
    if cells == [] then 0 else (if cells[0] == p then 1 else 0) + CountIn(cells[1..], p)
  }

  /** How many cells of the grid hold `p`. */
  function Count(g: Grid, p: char): (n: nat)
    requires IsGrid(g)
    ensures n <= 9
  {
    CountIn(g[0], p) + CountIn(g[1], p) + CountIn(g[2], p)
  }

  lemma {:induction false} CountInAbsent(cells: seq<char>, p: char)
    requires forall i :: 0 <= i < |cells| ==> cells[i] != p
    ensures CountIn(cells, p) == 0
  {
    if cells != [] {
      CountInAbsent(cells[1..], p);
    }
  }

  lemma {:induction false} CountInUpdate(cells: seq<char>, i: int, v: char, p: char)
    requires 0 <= i < |cells|
    ensures CountIn(cells[i := v], p)
         == CountIn(cells, p) - (if cells[i] == p then 1 else 0) + (if v == p then 1 else 0)
  {
    if i > 0 {
      assert cells[i := v][1..] == cells[1..][i - 1 := v];
      CountInUpdate(cells[1..], i - 1, v, p);
    }
  }

  lemma CountAfterPlace(g: Grid, row: int, col: int, v: char, p: char)
    requires IsGrid(g) && InRange(row) && InRange(col)
    ensures Count(Place(g, row, col, v), p)
         == Count(g, p) - (if g[row][col] == p then 1 else 0) + (if v == p then 1 else 0)
  {
    CountInUpdate(g[row], col, v, p);
  }

  // ---------------------------------------------------------------------
  // The game state and one call of make_move

  /** The fields of the game object: `board`, `current_player`,
      `game_over` and `winner`. */
  datatype State = State(board: Grid, current: char, over: bool, winner: char)

  /** What one call of `make_move` returns, and the state it leaves. */
  datatype Reply = Reply(ok: bool, after: State)

  /** The state the constructor sets up. */
  function Initial(): (s: State)
    ensures s.current == X && !s.over && s.winner == Empty
    ensures IsGrid(s.board) && forall r, c :: InRange(r) && InRange(c) ==> s.board[r][c] == Empty
  {
    State(EmptyGrid(), X, false, Empty)
  }

  /** The condition the call waits for before it takes the board. */
  predicate MayProceed(s: State, player: char) {
    s.current == player || s.over
  }

  /** The guard of `make_move`: a move that passes it is accepted. */
  predicate Legal(s: State, row: int, col: int)
    requires IsGrid(s.board)
  {
    !s.over && InRange(row) && InRange(col) && s.board[row][col] == Empty
  }

  function Opponent(player: char): char {
    if player == X then O else X
  }

  /** One call of `make_move(player, row, col)` once its wait is over:
      reject without change, or write the cell and then test for a win,
      then for a full board, and otherwise hand the turn over. */
  function Step(s: State, player: char, row: int, col: int): (r: Reply)
    requires IsGrid(s.board)
    ensures IsGrid(r.after.board)
    ensures r.ok <==> Legal(s, row, col)
    ensures !r.ok ==> r.after == s
    ensures r.ok ==> r.after.board[row][col] == player
    ensures r.ok ==> forall i, j :: InRange(i) && InRange(j) && (i != row || j != col) ==>
      r.after.board[i][j] == s.board[i][j]
    ensures r.ok ==> (r.after.over <==> Wins(r.after.board, player) || Full(r.after.board))
    ensures r.ok && Wins(r.after.board, player) ==> r.after.winner == player && r.after.current == s.current
    ensures r.ok && !Wins(r.after.board, player) && Full(r.after.board) ==>
      r.after.winner == Draw && r.after.current == s.current
    ensures r.ok && !r.after.over ==> r.after.current == Opponent(player) && r.after.winner == s.winner
  {
    if !Legal(s, row, col) then Reply(false, s)
    else
      var b := Place(s.board, row, col, player);
      if Wins(b, player) then Reply(true, State(b, s.current, true, player))
      else if Full(b) then Reply(true, State(b, s.current, true, Draw))
      else Reply(true, State(b, Opponent(player), false, s.winner))
  }

  // ---------------------------------------------------------------------
  // The invariant of reachable states

  /** X has moved as often as O when X is to move, once more when O is. */
  predicate Balanced(g: Grid, current: char)
    requires IsGrid(g)
  {
    Count(g, X) == Count(g, O) + (if current == X then 0 else 1)
  }

  /** A finished game has exactly the outcome its board shows. */
  predicate Decided(s: State)
    requires IsGrid(s.board)
  {
    var b := s.board;
    || (s.winner == X && Wins(b, X) && !Wins(b, O))
    || (s.winner == O && Wins(b, O) && !Wins(b, X))
    || (s.winner == Draw && Full(b) && !Wins(b, X) && !Wins(b, O))
  }

  predicate Consistent(s: State) {
    && IsGrid(s.board)
    && (s.current == X || s.current == O)
    && (forall r, c :: 0 <= r < 3 && 0 <= c < 3 ==> s.board[r][c] in {Empty, X, O})
    && (!s.over ==>
          s.winner == Empty && !Wins(s.board, X) && !Wins(s.board, O) && !Full(s.board)
          && Balanced(s.board, s.current))
    && (s.over ==> Decided(s))
  }

  lemma InitialIsConsistent()
    ensures Consistent(Initial())
  {
    var g := Initial().board;
    assert g[0][0] == Empty;
    CountInAbsent(g[0], X); CountInAbsent(g[1], X); CountInAbsent(g[2], X);
    CountInAbsent(g[0], O); CountInAbsent(g[1], O); CountInAbsent(g[2], O);
    WinsByLines(g, X);
    WinsByLines(g, O);
  }

  /** Every call that gets past the wait keeps the invariant. */
  lemma StepPreservesConsistent(s: State, player: char, row: int, col: int)
    requires Consistent(s) && MayProceed(s, player)
    ensures Consistent(Step(s, player, row, col).after)
  {
    if Legal(s, row, col) {
      var b := Place(s.board, row, col, player);
      var t := Step(s, player, row, col).after;
      assert player == s.current;
      assert t.board == b;
      PlaceCreatesNoWinFor(s.board, row, col, player, Opponent(player));
      if Wins(b, player) {
        assert t == State(b, s.current, true, player);
        assert Decided(t);
      } else if Full(b) {
        assert t == State(b, s.current, true, Draw);
        assert Decided(t);
      } else {
        assert t == State(b, Opponent(player), false, s.winner);
        CountAfterPlace(s.board, row, col, player, X);
        CountAfterPlace(s.board, row, col, player, O);
        assert Balanced(b, Opponent(player));
      }
    }
  }

  // ---------------------------------------------------------------------
  // The row-major scan of the sequential player

  /** (r, c) comes strictly before (row, col) in row-major order. */
  predicate Before(r: int, c: int, row: int, col: int) {
    r < row || (r == row && c < col)
  }

  /** The first empty cell at or after (row, col) in row-major order. */
  function ScanFrom(g: Grid, row: int, col: int): (r: Option<Pos>)
    requires IsGrid(g) && 0 <= row <= 3 && InRange(col)
    ensures r.Some? ==> OnBoard(r.value) && At(g, r.value) == Empty
    ensures r.Some? ==> !Before(r.value.row, r.value.col, row, col)
    ensures forall i, j ::
      (InRange(i) && InRange(j) && !Before(i, j, row, col)
       && (r.None? || Before(i, j, r.value.row, r.value.col))) ==> g[i][j] != Empty
    decreases 3 - row, 2 - col
  {
    if row == 3 then None
    else if g[row][col] == Empty then Some(Pos(row, col))
    else if col < 2 then ScanFrom(g, row, col + 1)
    else ScanFrom(g, row + 1, 0)
  }

  /** The first empty cell in row-major order, if there is one. */
  function FirstEmpty(g: Grid): (r: Option<Pos>)
    requires IsGrid(g)
    ensures r.None? <==> Full(g)
    ensures r.Some? ==> OnBoard(r.value) && At(g, r.value) == Empty
    ensures r.Some? ==> forall i, j ::
      (InRange(i) && InRange(j) && Before(i, j, r.value.row, r.value.col)) ==> g[i][j] != Empty
  {
    ScanFrom(g, 0, 0)
  }
}
