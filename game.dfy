/** The shared game object and the sequential player, as the two classes
    of the program. The lock and the condition variable are gone: the
    condition `make_move` waits for is its precondition, and every method
    runs as if it held the lock throughout. */
module Game {
  import opened Rules

  class TicTacToe {
    var board: array2<char>
    var currentPlayer: char
    var gameOver: bool
    var winner: char

    /** The object invariant: a 3×3 board and a state reachable by play. */
    ghost predicate Valid()
      reads this, board
    {
      board.Length0 == 3 && board.Length1 == 3 && Consistent(Snapshot())
    }

    /** The board as a value. */
    ghost function Cells(): (g: Grid)
      reads this`board, board
      requires board.Length0 == 3 && board.Length1 == 3
      ensures IsGrid(g)
    {
      [[board[0, 0], board[0, 1], board[0, 2]],
       [board[1, 0], board[1, 1], board[1, 2]],
       [board[2, 0], board[2, 1], board[2, 2]]]
    }

    /** All four fields as a value. */
    ghost function Snapshot(): State
      reads this, board
      requires board.Length0 == 3 && board.Length1 == 3
    {
      State(Cells(), currentPlayer, gameOver, winner)
    }

    constructor ()
      ensures Valid() && fresh(board)
      ensures Snapshot() == Initial()
    {
      currentPlayer := X;
      winner := Empty;
      gameOver := false;
      var b := new char[3, 3];
      for r := 0 to 3
        invariant forall i, j :: 0 <= i < r && 0 <= j < 3 ==> b[i, j] == Empty
      {
        for c := 0 to 3
          invariant forall i, j :: 0 <= i < r && 0 <= j < 3 ==> b[i, j] == Empty
          invariant forall j :: 0 <= j < c ==> b[r, j] == Empty
        {
          b[r, c] := Empty;
        }
      }
      board := b;
      new;
      assert Cells() == EmptyGrid();
      InitialIsConsistent();
    }

    /** `make_move` after its wait: the caller may proceed only when it is
        its turn or the game is over. */
    method MakeMove(player: char, row: int, col: int) returns (ok: bool)
      requires Valid()
      requires MayProceed(Snapshot(), player)
      modifies this, board
      ensures board == old(board)
      ensures Reply(ok, Snapshot()) == Step(old(Snapshot()), player, row, col)
      ensures Valid()
    {
      ghost var before := Snapshot();
      if gameOver || row < 0 || row > 2 || col < 0 || col > 2 || board[row, col] != Empty {
        assert !Legal(before, row, col);
        return false;
      }
      board[row, col] := player;
      ghost var placed := Place(before.board, row, col, player);
      GridsEqual(Cells(), placed);
      ghost var next := Step(before, player, row, col).after;
      assert Step(before, player, row, col) == Reply(true, next);
      StepPreservesConsistent(before, player, row, col);

      assert Legal(before, row, col);

      var won := CheckWin(player);
      if won {
        assert next == State(placed, currentPlayer, true, player);
        gameOver := true;
        winner := player;
        return true;
      }
      var full := CheckDraw();
      if full {
        assert next == State(placed, currentPlayer, true, Draw);
        gameOver := true;
        winner := Draw;
        return true;
      }
      assert next == State(placed, Opponent(player), false, winner);
      currentPlayer := if player == X then O else X;
      return true;
    }

    /** `check_win`: rows, then columns, then the two diagonals. */
    method CheckWin(player: char) returns (won: bool)
      requires board.Length0 == 3 && board.Length1 == 3
      ensures won <==> Wins(Cells(), player)
    {
      ghost var g := Cells();
      for i := 0 to 3
        invariant forall k :: 0 <= k < i ==> !Complete(g, LineAt(k), player)
      {
        if board[i, 0] == player && board[i, 1] == player && board[i, 2] == player {
          assert Complete(g, LineAt(i), player);
          return true;
        }
      }
      for j := 0 to 3
        invariant forall k :: 0 <= k < 3 + j ==> !Complete(g, LineAt(k), player)
      {
        if board[0, j] == player && board[1, j] == player && board[2, j] == player {
          assert Complete(g, LineAt(3 + j), player);
          return true;
        }
      }
      if (board[0, 0] == player && board[1, 1] == player && board[2, 2] == player) ||
         (board[0, 2] == player && board[1, 1] == player && board[2, 0] == player)
      {
        assert Complete(g, LineAt(6), player) || Complete(g, LineAt(7), player);
        return true;
      }
      return false;
    }

    /** `check_draw`: the board has no empty cell. */
    method CheckDraw() returns (full: bool)
      requires board.Length0 == 3 && board.Length1 == 3
      ensures full <==> Full(Cells())
    {
      CellsMatchBoard(this);
      for i := 0 to 3
        invariant forall r, c :: 0 <= r < i && 0 <= c < 3 ==> board[r, c] != Empty
      {
        for j := 0 to 3
          invariant forall r, c :: 0 <= r < i && 0 <= c < 3 ==> board[r, c] != Empty
          invariant forall c :: 0 <= c < j ==> board[i, c] != Empty
        {
          if board[i, j] == Empty {
            return false;
          }
        }
      }
      return true;
    }

    /** `is_game_over`: the game is over exactly when a line or a full
        board has been reached. */
    function IsGameOver(): (over: bool)
      reads this, board
      requires Valid()
      ensures over <==> Wins(Cells(), X) || Wins(Cells(), O) || Full(Cells())
    {
      gameOver
    }

    /** `get_winner`: ' ' while the game runs, otherwise the mark that holds
        a line or 'D' for a full board without one. */
    function GetWinner(): (w: char)
      reads this, board
      requires Valid()
      ensures w == Empty <==> !gameOver
      ensures w == X || w == O || w == Draw || w == Empty
      ensures (w == X || w == O) ==> Wins(Cells(), w) && !Wins(Cells(), Opponent(w))
      ensures w == Draw ==> Full(Cells()) && !Wins(Cells(), X) && !Wins(Cells(), O)
    {
      winner
    }

    /** `get_current_player`: always 'X' or 'O'; while the game runs, X is to
        move exactly when both have placed the same number of marks. */
    function GetCurrentPlayer(): (p: char)
      reads this, board
      requires Valid()
      ensures p == X || p == O
      ensures !gameOver ==> (p == X <==> Count(Cells(), X) == Count(Cells(), O))
      ensures !gameOver ==> (p == O <==> Count(Cells(), X) == Count(Cells(), O) + 1)
    {
      currentPlayer
    }
  }

  /** `Cells` reads the board cell by cell. */
  lemma CellsMatchBoard(t: TicTacToe)
    requires t.board.Length0 == 3 && t.board.Length1 == 3
    ensures forall r, c :: 0 <= r < 3 && 0 <= c < 3 ==> t.Cells()[r][c] == t.board[r, c]
  {
  }

  class Player {
    const game: TicTacToe
    const symbol: char
    const strategy: string

    constructor (g: TicTacToe, s: char, strat: string)
      ensures game == g && symbol == s && strategy == strat
    {
      game := g;
      symbol := s;
      strategy := strat;
    }

    /** `play_sequential`: offer the cells in row-major order until one is
        accepted. Called on the player's turn, it marks the first empty
        cell; called after the game ended, it changes nothing. */
    method PlaySequential()
      requires game.Valid()
      requires MayProceed(game.Snapshot(), symbol)
      modifies game, game.board
      ensures game.Valid() && game.board == old(game.board)
      ensures old(game.gameOver) ==> game.Snapshot() == old(game.Snapshot())
      ensures !old(game.gameOver) ==>
        && old(FirstEmpty(game.Cells())).Some?
        && var p := old(FirstEmpty(game.Cells())).value;
           && game.Cells()[p.row][p.col] == symbol
           && game.Snapshot() == Step(old(game.Snapshot()), symbol, p.row, p.col).after
    {
      for row := 0 to 3
        invariant game.Valid() && game.board == old(game.board)
        invariant game.Snapshot() == old(game.Snapshot())
        invariant !game.gameOver ==>
          forall i, j :: 0 <= i < row && 0 <= j < 3 ==> game.Cells()[i][j] != Empty
      {
        for col := 0 to 3
          invariant game.Valid() && game.board == old(game.board)
          invariant game.Snapshot() == old(game.Snapshot())
          invariant !game.gameOver ==>
            forall i, j :: 0 <= i < 3 && 0 <= j < 3 && Before(i, j, row, col) ==> game.Cells()[i][j] != Empty
        {
          var ok := game.MakeMove(symbol, row, col);
          if ok {
            return;
          }
        }
      }
    }
  }
}
