/** Whole games: a sequence of `make_move` calls that got past their wait,
    applied one after another, and what holds of every such sequence. */
module Runs {
  import opened Rules

  /** One call `make_move(player, row, col)`. */
  datatype Move = Move(player: char, row: int, col: int)

  function Apply(s: State, m: Move): Reply
    requires IsGrid(s.board)
  {
    Step(s, m.player, m.row, m.col)
  }

  /** The state after the calls, in order. */
  function Run(s: State, moves: seq<Move>): (t: State)
    requires IsGrid(s.board)
    ensures IsGrid(t.board)
    decreases |moves|
  {
    if moves == [] then s else Run(Apply(s, moves[0]).after, moves[1..])
  }

  /** Every call in the sequence found its caller's turn, or the game over,
      when it took the board: the calls the wait lets through. */
  predicate Admissible(s: State, moves: seq<Move>)
    requires IsGrid(s.board)
    decreases |moves|
  {
    moves == [] || (MayProceed(s, moves[0].player) && Admissible(Apply(s, moves[0]).after, moves[1..]))
  }

  /** The calls that returned true, in order. */
  function Accepted(s: State, moves: seq<Move>): (acc: seq<Move>)
    requires IsGrid(s.board)
    ensures |acc| <= |moves|
    decreases |moves|
  {
    if moves == [] then []
    else
      var r := Apply(s, moves[0]);
      (if r.ok then [moves[0]] else []) + Accepted(r.after, moves[1..])
  }

  lemma {:induction false} RunPreservesConsistent(s: State, moves: seq<Move>)
    requires Consistent(s) && Admissible(s, moves)
    ensures Consistent(Run(s, moves))
    decreases |moves|
  {
    if moves != [] {
      StepPreservesConsistent(s, moves[0].player, moves[0].row, moves[0].col);
      RunPreservesConsistent(Apply(s, moves[0]).after, moves[1..]);
    }
  }

  /** Once the game is over no call changes anything or is accepted. */
  lemma {:induction false} FinishedGameIsFrozen(s: State, moves: seq<Move>)
    requires IsGrid(s.board) && s.over
    ensures Run(s, moves) == s
    ensures Accepted(s, moves) == []
    decreases |moves|
  {
    if moves != [] {
      FinishedGameIsFrozen(s, moves[1..]);
    }
  }

  /** A cell that holds a mark keeps it for the rest of the game. */
  lemma {:induction false} FilledCellsPersist(s: State, moves: seq<Move>, r: int, c: int)
    requires IsGrid(s.board) && InRange(r) && InRange(c) && s.board[r][c] != Empty
    ensures Run(s, moves).board[r][c] == s.board[r][c]
    decreases |moves|
  {
    if moves != [] {
      FilledCellsPersist(Apply(s, moves[0]).after, moves[1..], r, c);
    }
  }

  /** Every call in `acc` targets a cell on the board that is empty in `g`. */
  predicate TargetsEmptyCells(g: Grid, acc: seq<Move>)
    requires IsGrid(g)
  {
    forall i :: 0 <= i < |acc| ==>
      InRange(acc[i].row) && InRange(acc[i].col) && g[acc[i].row][acc[i].col] == Empty
  }

  /** No two calls in `acc` target the same cell. */
  predicate DistinctCells(acc: seq<Move>) {
    forall i, j :: 0 <= i < j < |acc| ==> acc[i].row != acc[j].row || acc[i].col != acc[j].col
  }

  /** Every call in `acc` is by 'X' or 'O', and neighbours are by different players. */
  predicate Alternating(acc: seq<Move>) {
    && (forall i :: 0 <= i < |acc| ==> acc[i].player == X || acc[i].player == O)
    && (forall i :: 0 <= i < |acc| - 1 ==> acc[i].player != acc[i + 1].player)
  }

  /** No two accepted calls target the same cell, and each one targeted a
      cell that was empty at the start. */
  lemma {:induction false} AcceptedCellsDistinct(s: State, moves: seq<Move>)
    requires Consistent(s) && Admissible(s, moves)
    ensures TargetsEmptyCells(s.board, Accepted(s, moves))
    ensures DistinctCells(Accepted(s, moves))
    decreases |moves|
  {
    if moves != [] {
      var m := moves[0];
      var r := Apply(s, m);
      StepPreservesConsistent(s, m.player, m.row, m.col);
      AcceptedCellsDistinct(r.after, moves[1..]);
      var rest := Accepted(r.after, moves[1..]);
      if r.ok {
        var acc := Accepted(s, moves);
        assert acc == [m] + rest;
        assert m.player == s.current;
        forall i | 0 <= i < |rest|
          ensures rest[i].row != m.row || rest[i].col != m.col
          ensures s.board[rest[i].row][rest[i].col] == Empty
        {
          assert r.after.board[rest[i].row][rest[i].col] == Empty;
        }
        forall i | 0 < i < |acc|
          ensures acc[i] == rest[i - 1]
        {
        }
      }
    }
  }

  /** The first accepted call of an admissible sequence is by the player
      whose turn it was, in a game that was still running. */
  lemma {:induction false} FirstAcceptedIsCurrent(s: State, moves: seq<Move>)
    requires Consistent(s) && Admissible(s, moves) && |Accepted(s, moves)| > 0
    ensures !s.over && Accepted(s, moves)[0].player == s.current
    decreases |moves|
  {
    var r := Apply(s, moves[0]);
    if !r.ok {
      FirstAcceptedIsCurrent(r.after, moves[1..]);
    }
  }

  /** Accepted calls alternate strictly between the two players. */
  lemma {:induction false} TurnsAlternate(s: State, moves: seq<Move>)
    requires Consistent(s) && Admissible(s, moves)
    ensures Alternating(Accepted(s, moves))
    decreases |moves|
  {
    if moves != [] {
      var m := moves[0];
      var r := Apply(s, m);
      StepPreservesConsistent(s, m.player, m.row, m.col);
      TurnsAlternate(r.after, moves[1..]);
      var rest := Accepted(r.after, moves[1..]);
      if r.ok {
        var acc := Accepted(s, moves);
        assert acc == [m] + rest;
        assert m.player == s.current;
        forall i | 0 < i < |acc|
          ensures acc[i] == rest[i - 1]
        {
        }
        if |rest| > 0 {
          FirstAcceptedIsCurrent(r.after, moves[1..]);
          assert rest[0].player == r.after.current != m.player;
        }
      }
    }
  }

  // ---------------------------------------------------------------------
  // Three games played out

  /** Every call is let through by the wait and accepted, taking the game
      from one listed state to the next. */
  predicate AcceptedChain(states: seq<State>, moves: seq<Move>) {
    && |states| == |moves| + 1
    && (forall i :: 0 <= i < |states| ==> IsGrid(states[i].board))
    && (forall i :: 0 <= i < |moves| ==>
          IsGrid(states[i].board) && MayProceed(states[i], moves[i].player)
          && Apply(states[i], moves[i]) == Reply(true, states[i + 1]))
  }

  /** Along such a chain the run is admissible, accepts every call and
      ends in the last listed state. */
  lemma {:induction false} RunThrough(states: seq<State>, moves: seq<Move>)
    requires AcceptedChain(states, moves)
    ensures Admissible(states[0], moves)
    ensures Accepted(states[0], moves) == moves
    ensures Run(states[0], moves) == states[|moves|]
    decreases |moves|
  {
    if moves != [] {
      assert AcceptedChain(states[1..], moves[1..]) by {
        forall i | 0 <= i < |moves| - 1
          ensures states[1..][i] == states[i + 1] && moves[1..][i] == moves[i + 1]
        {
        }
      }
      RunThrough(states[1..], moves[1..]);
      assert moves == [moves[0]] + moves[1..];
    }
  }

  /** An accepted call that completes no line and leaves an empty cell:
      the game goes on with the board `b` and the other player to move. */
  lemma QuietStep(s: State, m: Move, b: Grid)
    requires IsGrid(s.board) && IsGrid(b) && Legal(s, m.row, m.col)
    requires forall r, c :: 0 <= r < 3 && 0 <= c < 3 ==>
      b[r][c] == (if r == m.row && c == m.col then m.player else s.board[r][c])
    requires !Wins(b, m.player) && !Full(b)
    ensures Apply(s, m) == Reply(true, State(b, Opponent(m.player), false, s.winner))
  {
    GridsEqual(Place(s.board, m.row, m.col, m.player), b);
  }

  /** X takes (0,0), (0,1) and (0,2) on its turns while O takes (1,0) and
      (1,1). */
  function TopRowGame(): seq<Move> {
    [Move(X, 0, 0), Move(O, 1, 0), Move(X, 0, 1), Move(O, 1, 1), Move(X, 0, 2)]
  }

  /** The states the top-row game passes through, from the constructed
      state to X's win. */
  function TopRowStates(): seq<State> {
    [Initial(),
     State(["X  ", "   ", "   "], O, false, Empty),
     State(["X  ", "O  ", "   "], X, false, Empty),
     State(["XX ", "O  ", "   "], O, false, Empty),
     State(["XX ", "OO ", "   "], X, false, Empty),
     State(["XXX", "OO ", "   "], X, true, X)]
  }

  /** Call 1, X at (0,0): accepted, no line, the board not full; the
      turn passes. */
  lemma TopRowGameMove1()
    ensures Apply(Initial(), Move(X, 0, 0))
         == Reply(true, State(["X  ", "   ", "   "], O, false, Empty))
  {
    var b := ["X  ", "   ", "   "];
    WinsByLines(b, X);
    assert b[1][1] == Empty;
    QuietStep(Initial(), Move(X, 0, 0), b);
  }

  /** Call 2, O at (1,0): accepted, no line, the board not full; the
      turn passes. */
  lemma TopRowGameMove2()
    ensures Apply(State(["X  ", "   ", "   "], O, false, Empty), Move(O, 1, 0))
         == Reply(true, State(["X  ", "O  ", "   "], X, false, Empty))
  {
    var b := ["X  ", "O  ", "   "];
    WinsByLines(b, O);
    assert b[1][1] == Empty;
    QuietStep(State(["X  ", "   ", "   "], O, false, Empty), Move(O, 1, 0), b);
  }

  /** Call 3, X at (0,1): accepted, no line, the board not full; the
      turn passes. */
  lemma TopRowGameMove3()
    ensures Apply(State(["X  ", "O  ", "   "], X, false, Empty), Move(X, 0, 1))
         == Reply(true, State(["XX ", "O  ", "   "], O, false, Empty))
  {
    var b := ["XX ", "O  ", "   "];
    WinsByLines(b, X);
    assert b[1][1] == Empty;
    QuietStep(State(["X  ", "O  ", "   "], X, false, Empty), Move(X, 0, 1), b);
  }

  /** Call 4, O at (1,1): accepted, no line, the board not full; the
      turn passes. */
  lemma TopRowGameMove4()
    ensures Apply(State(["XX ", "O  ", "   "], O, false, Empty), Move(O, 1, 1))
         == Reply(true, State(["XX ", "OO ", "   "], X, false, Empty))
  {
    var b := ["XX ", "OO ", "   "];
    WinsByLines(b, O);
    assert b[2][2] == Empty;
    QuietStep(State(["XX ", "O  ", "   "], O, false, Empty), Move(O, 1, 1), b);
  }

  /** Call 5, X at (0,2): accepted, and it completes the top row, so X
      wins and keeps the turn. */
  lemma TopRowGameMove5()
    ensures Apply(State(["XX ", "OO ", "   "], X, false, Empty), Move(X, 0, 2))
         == Reply(true, State(["XXX", "OO ", "   "], X, true, X))
  {
    var s := State(["XX ", "OO ", "   "], X, false, Empty);
    var b := Place(s.board, 0, 2, X);
    assert Legal(s, 0, 2);
    assert Complete(b, LineAt(0), X);
    GridsEqual(b, ["XXX", "OO ", "   "]);
  }

  /** Each call of the top-row game moves the game to the next listed
      state. */
  lemma TopRowGameIsChain()
    ensures AcceptedChain(TopRowStates(), TopRowGame())
  {
    var states, moves := TopRowStates(), TopRowGame();
    assert |states| == |moves| + 1 && IsGrid(states[5].board);
    forall i | 0 <= i < 5
      ensures IsGrid(states[i].board) && MayProceed(states[i], moves[i].player)
      ensures Apply(states[i], moves[i]) == Reply(true, states[i + 1])
    {
      if i == 0 {
        TopRowGameMove1();
      } else if i == 1 {
        TopRowGameMove2();
      } else if i == 2 {
        TopRowGameMove3();
      } else if i == 3 {
        TopRowGameMove4();
      } else {
        TopRowGameMove5();
      }
    }
  }

  /** Played from the constructed state, every call of the top-row game is
      let through by the wait and accepted, and X ends the game holding the
      top row, with the turn kept. */
  lemma XWinsTopRow()
    ensures Admissible(Initial(), TopRowGame())
    ensures Accepted(Initial(), TopRowGame()) == TopRowGame()
    ensures var t := Run(Initial(), TopRowGame());
      t.over && t.winner == X && t.current == X && t.board[0] == "XXX"
  {
    TopRowGameIsChain();
    RunThrough(TopRowStates(), TopRowGame());
  }

  /** The ninth mark completes the main diagonal and fills the board: the
      game is won by X, not drawn. */
  lemma WinOnLastCellIsNotDraw()
    ensures var r := Step(State(["XOX", "OXO", "OX "], X, false, Empty), X, 2, 2);
      r.ok && Full(r.after.board) && r.after.over && r.after.winner == X
  {
    var s := State(["XOX", "OXO", "OX "], X, false, Empty);
    var r := Step(s, X, 2, 2);
    assert Legal(s, 2, 2);
    assert Complete(r.after.board, LineAt(6), X);
  }

  /** The ninth mark fills the board without completing any line: the game
      is drawn. */
  lemma LastCellWithoutLineIsDraw()
    ensures var r := Step(State(["XOX", "XOX", "O O"], X, false, Empty), X, 2, 1);
      r.ok && r.after.over && r.after.winner == Draw
  {
  }
}
