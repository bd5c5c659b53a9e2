# Tic-tac-toe game state machine, in Dafny

This project models the core of a two-player tic-tac-toe program written in C++. The core is the shared game object `TicTacToe` in `src/main.cpp`. It holds a 3×3 `char` board, the player whose turn it is (`current_player`), a `game_over` flag and a `winner` (' ' while the game runs, 'X' or 'O' for a line, 'D' for a draw). Players submit moves through `make_move(player, row, col)`. The sequential player (`Player::play_sequential`) offers the cells in row-major order until one is accepted.

The model has three modules:

- `Rules` (rules.dfy) holds the game as values. A `Grid` is a sequence of three rows of three `char`s. It defines the eight lines and `Wins`, and the full-board test `Full`. `Step` is one call of `make_move` after its wait, a transition from `State` to `Reply`. `Consistent` is the invariant every reachable state keeps. `FirstEmpty` is the row-major scan.
- `Game` (game.dfy) holds the two classes of the program:
  - `TicTacToe` keeps its board in an `array2<char>` and its three other fields as mutable fields. `MakeMove` updates them in place. Its contract ties the new fields to `Step` of the old ones.
  - `CheckWin` and `CheckDraw` keep the loops of the source. They are proved equal to `Wins` and `Full`.
  - `Player.PlaySequential` keeps the nested loops of the source. It calls `MakeMove` repeatedly.
- `Runs` (runs.dfy) covers whole games: sequences of `make_move` calls that got past their wait, and what holds of every such sequence.

The condition-variable wait in `make_move` (`current_player == player || game_over`) becomes the precondition `MayProceed`. Every method runs as if it held the mutex from start to end.

## Model

| member | source | states |
|---|---|---|
| `Rules.EmptyGrid` | src/main.cpp:26-28 | the initial board is 3×3 with every cell ' ' |
| `Rules.Place` | src/main.cpp:62 | writing one cell sets exactly that cell and leaves the other eight as they were |
| `Rules.LineAt` | src/main.cpp:88-103 | each of the eight lines tried by `check_win` consists of three distinct on-board cells |
| `Rules.WinsIffThreeInARow` | src/main.cpp:88-105 | the eight lines are exactly the straight runs of three cells in any direction on a 3×3 board: winning by the line table and winning by the geometric definition coincide |
| `Rules.PlaceCreatesNoWinFor` | src/main.cpp:62-68 | writing one player's mark never gives a different mark a new line, which is why `check_win(player)` tests only the mover |
| `Rules.Initial` | src/main.cpp:20-29 | the constructed state has every cell ' ', `current_player == 'X'`, `game_over == false` and `winner == ' '` |
| `Rules.Step` | src/main.cpp:57-85 | the call is accepted iff the game is not over, row and col are in 0..2 and the cell is ' '. A rejected call changes nothing. An accepted call writes `player` into that one cell and leaves the other cells alone. Afterwards the game is over iff the mover has a line or the board is full. A line sets `winner = player` and keeps the turn, and it takes precedence over a full board. A full board without a line sets `winner = 'D'` and keeps the turn. Otherwise the turn passes to the other mark and `winner` is unchanged |
| `Rules.InitialIsConsistent` | src/main.cpp:20-29 | the constructed state satisfies the game invariant `Consistent` |
| `Rules.StepPreservesConsistent` | src/main.cpp:53-85 | every call that got past the wait keeps the invariant. The invariant says: cells hold only ' ', 'X' or 'O'; `current_player` is 'X' or 'O'. While the game runs, nobody has a line, the board is not full, `winner` is ' ', and X has placed as many marks as O when X is to move and one more when O is. Once the game is over, `winner` names the only player with a line, or 'D' for a full board without one |
| `Rules.FirstEmpty` | src/main.cpp:155-163 | the row-major scan finds nothing iff the board is full. Otherwise it finds an empty cell, and every cell before it in row-major order is occupied |
| `Game.TicTacToe.constructor` | src/main.cpp:20-29 | the new object's board is a fresh 3×3 array filled by loops with ' ', its state is `Initial()` and the object invariant holds |
| `Game.TicTacToe.MakeMove` | src/main.cpp:49-86 | under the wait condition, the returned flag and the new values of board, `current_player`, `game_over` and `winner` are exactly `Step` of the old values. The array is updated in place and the object invariant is kept |
| `Game.TicTacToe.CheckWin` | src/main.cpp:88-105 | the loop over rows, the loop over columns and the two diagonal tests return true iff `Wins` holds for the board and the player |
| `Game.TicTacToe.CheckDraw` | src/main.cpp:107-116 | the nested loop returns true iff no cell is ' ' |
| `Game.TicTacToe.IsGameOver` | src/main.cpp:118-120 | on a valid object, the game is over iff X or O has a line or the board is full |
| `Game.TicTacToe.GetWinner` | src/main.cpp:122-124 | on a valid object: ' ' iff the game runs. 'X' or 'O' only for the one player holding a line. 'D' only for a full board without any line |
| `Game.TicTacToe.GetCurrentPlayer` | src/main.cpp:126-128 | always 'X' or 'O'. While the game runs, it is 'X' exactly when both have placed the same number of marks, and 'O' when X has placed one more |
| `Game.Player.constructor` | src/main.cpp:139-140 | the player refers to the given game and keeps the given mark and strategy name |
| `Game.Player.PlaySequential` | src/main.cpp:155-163 | on the player's turn in a running game, it places the player's mark in the first empty cell in row-major order, and the new state is `Step` for that cell. After the game has ended it changes nothing |
| `Runs.RunPreservesConsistent` | src/main.cpp:49-86 | any sequence of calls that got past their wait keeps the invariant |
| `Runs.FinishedGameIsFrozen` | src/main.cpp:57-58 | once `game_over` is set, no later call changes the board, turn, flag or winner, and none is accepted |
| `Runs.FilledCellsPersist` | src/main.cpp:57-62 | a cell that holds a mark keeps it through any sequence of calls |
| `Runs.AcceptedCellsDistinct` | src/main.cpp:57-62 | in any admissible sequence, each accepted call targets a cell that was empty at the start, and no two accepted calls target the same cell |
| `Runs.FirstAcceptedIsCurrent` | src/main.cpp:53-58 | the first accepted call of an admissible sequence comes while the game is running and is made by the player whose turn it was |
| `Runs.TurnsAlternate` | src/main.cpp:53-83 | accepted calls are by 'X' or 'O' only, and two consecutive accepted calls are always by different players |
| `Runs.RunThrough` | src/main.cpp:49-86 | when every call of a sequence passes the wait and is accepted, taking the game through a list of states, the sequence is admissible, every call is accepted, and the run ends in the last listed state |
| `Runs.TopRowGameMove1` | src/main.cpp:57-85 | from the constructed state, X at (0,0) is accepted; nobody has a line and the board is not full, so the turn passes to O |
| `Runs.TopRowGameMove2` | src/main.cpp:57-85 | next, O at (1,0) is accepted and the turn passes back to X |
| `Runs.TopRowGameMove3` | src/main.cpp:57-85 | next, X at (0,1) is accepted and the turn passes to O |
| `Runs.TopRowGameMove4` | src/main.cpp:57-85 | next, O at (1,1) is accepted and the turn passes to X |
| `Runs.TopRowGameMove5` | src/main.cpp:68-72 | finally, X at (0,2) completes the top row: the game is over, the winner is 'X', the turn stays with X and row 0 is "XXX" |
| `Runs.TopRowGameIsChain` | src/main.cpp:49-86 | each of the five calls moves the game to the next of the six listed states |
| `Runs.XWinsTopRow` | src/main.cpp:20-86 | played from the constructed state, X at (0,0), O at (1,0), X at (0,1), O at (1,1) and X at (0,2) are all let through by the wait and all accepted. The game ends with winner 'X', the turn with X and row 0 "XXX" |
| `Runs.WinOnLastCellIsNotDraw` | src/main.cpp:68-80 | a ninth mark that completes a diagonal and fills the board gives winner 'X', not 'D' |
| `Runs.LastCellWithoutLineIsDraw` | src/main.cpp:75-80 | a ninth mark that fills the board without any line ends the game with winner 'D' |

## Left out

- The mutex and the condition variable (`board_mutex`, `turn_cv`, `wait`, `notify_all`) are thread synchronisation. The wait predicate is the precondition `MayProceed` of `MakeMove`. A call that would block forever has no counterpart in the model. Blocking and wake-ups are not modelled.
- The one-second `sleep_for` inside `make_move` is only a pause.
- `display_board` and all console output in `main` are output only. They change no state.
- `Player::play` is the busy-polling loop that each thread runs. Its point is concurrency, and it reads the game's fields without the lock. Only the sequential strategy it dispatches to is modelled. The `strategy` field is kept but not read.
- `Player::play_random` draws cells from `std::rand` after seeding it with the wall clock. It has no bound on its number of tries.
- `main` creates and joins the two threads.
- Coordinates are unbounded `int`s. The source's 32-bit `int` only appears in comparisons against 0 and 2, so no width matters.

## Notes on the model

- The turn passes to `player == 'X' ? 'O' : 'X'`. It is computed from the caller's `player` argument, not from `current_player`, and `Step` does the same. Under the wait condition an accepted call has `player == current_player` (`Runs.FirstAcceptedIsCurrent`), so this flips `current_player`.
- The program keeps the game's status in two fields, `game_over` and the `winner` character (' ', 'X', 'O' or 'D'). The model keeps both fields, and `Consistent` states which combinations can occur.
