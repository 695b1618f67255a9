# Tic-tac-toe board, outcome evaluation and minimax move search

A Dafny model of the algorithmic core of `VITyarthi/tic_tac_toe.py`. It covers three parts:

- the 3x3 `Board`: validity of a placement, placing a symbol, fullness, reset;
- `GameLogic`: the winner scan over the eight lines, and the game-over verdict;
- `AIPlayer`: the exhaustive minimax search behind `get_move` and `_minimax`.

The grid is a sequence of nine `Cell`s (`Empty`, `Mark(X)`, `Mark(O)`) in row-major order. Cell (row, col) is at index `3 * row + col`.

The search appears twice.

- Module `AIPlayer` has pure functions. `Minimax`, `Child` and `Scan` are mutually recursive. They terminate on a lexicographic measure: first the number of blank cells, then which function is running (`Minimax` ranks above `Scan` and `Child`), then the cells `Scan` has still to visit. Only `Child` removes a blank cell, when it recurses into `Minimax`. `Minimax` hands the same board to `Scan`, and each `Scan` step moves one cell on. `Pick` and `GetMove` do the top-level choice.
- Module `InPlaceSearch` has methods over one shared `array<Cell>`, as the source works. A mark is written, the search recurses, and the blank is written back. The methods are proved to leave the array exactly as they found it and to return what the functions compute.

The source starts its running best at `float('-inf')` / `float('inf')`. Here `None` stands for that sentinel. Every child score is a finite integer, so the first child always replaces it, exactly as a float infinity would.

Modules: `Wrappers` (Option), `Board`, `GameLogic`, `AIPlayer`, `InPlaceSearch`, and `Tactics` (what the search does on particular kinds of position).

## Model

| member | source | states |
|---|---|---|
| `Board.ValidMoveExistsIffNotFull` | VITyarthi/tic_tac_toe.py:25-27 | for every row-major position k, the move (k/3, k%3) is valid exactly when that cell is blank; some valid (row, col) exists exactly when the board is not full; coordinates off the board are never valid |
| `Board.Place` | VITyarthi/tic_tac_toe.py:159-162 | writing a mark into a blank cell sets exactly that cell, leaves the other eight alone, and removes exactly one blank cell |
| `Board.MakeMove` | VITyarthi/tic_tac_toe.py:29-34 | true exactly when the move is valid; then that cell holds the symbol, every other cell is unchanged and there is one blank fewer; when invalid, false and the grid is untouched |
| `Board.IsFullIffNoEmpty` | VITyarthi/tic_tac_toe.py:36-38 | the board is full exactly when its count of blank cells is zero |
| `Board.Reset` | VITyarthi/tic_tac_toe.py:40-42 | whatever the board held, every cell becomes blank: nine blank cells and not full |
| `Board.SecondMoveOnSameCellFails` | VITyarthi/tic_tac_toe.py:29-34 | X at (1,1) on a fresh board succeeds; O at (1,1) next fails and the X stays |
| `GameLogic.Owner` | VITyarthi/tic_tac_toe.py:61-62 | a line has an owner exactly when its three cells hold the same mark, and the owner is that mark |
| `GameLogic.FirstOwnerIsFirstComplete` | VITyarthi/tic_tac_toe.py:58-73 | scanning lines i..7 answers the owner of the first complete line among them, with no complete line before it; None exactly when none of them is complete |
| `GameLogic.CheckWinnerIsFirstComplete` | VITyarthi/tic_tac_toe.py:53-73 | the winner owns a complete line and no line earlier in the order rows, columns, main diagonal, anti-diagonal is complete; None exactly when none of the eight lines is complete |
| `GameLogic.SoleOwnerWins` | VITyarthi/tic_tac_toe.py:53-73 | when one player owns at least one line and the other owns none, that player is the winner |
| `GameLogic.IsGameOver` | VITyarthi/tic_tac_toe.py:76-86 | the game is over exactly when some line is complete or no cell is blank; a winner is reported exactly when check_winner finds one, even on a full board; a draw exactly when no line is complete and the board is full; otherwise (False, None) |
| `GameLogic.TopRowOfXWins` | VITyarthi/tic_tac_toe.py:60-62 | X across the top row is reported as the winner |
| `GameLogic.FullBoardWithoutLineIsDraw` | VITyarthi/tic_tac_toe.py:76-86 | on the full board X O X / O X O / O X O no line is complete and the verdict is a draw |
| `GameLogic.ResetBoardIsOngoing` | VITyarthi/tic_tac_toe.py:40-42 | after reset there is no winner and the game is not over |
| `AIPlayer.Fold` | VITyarthi/tic_tac_toe.py:163-173 | the folded value is the new score or the previous best, and is at least (max) or at most (min) both of them |
| `AIPlayer.Minimax` | VITyarthi/tic_tac_toe.py:145-175 | 10 - depth when the AI has the line, depth - 10 when the opponent has it, 0 on a full board with no line; within [depth - 10, 10 - depth] whenever depth plus blank cells is at most 10; below 10 - depth unless the AI already has a line, and above depth - 10 unless the opponent has one, when that sum is at most 9 |
| `AIPlayer.Child` | VITyarthi/tic_tac_toe.py:161-173 | whenever depth plus the board's blank cells is at most 10, a child's value one ply deeper lies in [depth - 9, 9 - depth] |
| `AIPlayer.Scan` | VITyarthi/tic_tac_toe.py:159-165 | the loop over the cells yields a value whenever some remaining cell is blank, and keeps the one-ply-deeper bounds |
| `AIPlayer.ScanIsExtremum` | VITyarthi/tic_tac_toe.py:156-175 | the loop's result is the starting value or some blank cell's child value, and it is the maximum (AI to move) or minimum (opponent to move) of all of them |
| `AIPlayer.MinimaxIsExtremumOfChildren` | VITyarthi/tic_tac_toe.py:156-175 | on a board with no line and a blank cell, the value equals some child's value and is the largest child value when the AI moves, the smallest when the opponent moves |
| `AIPlayer.MoveScore` | VITyarthi/tic_tac_toe.py:134-136 | a candidate move scores within [-10, 10], and exactly 10 when check_winner of the board with that mark answers the AI |
| `AIPlayer.Pick` | VITyarthi/tic_tac_toe.py:132-141 | the loop returns nothing exactly when nothing was kept and no remaining cell is blank; otherwise it returns the kept move or a blank cell at or after the current one |
| `AIPlayer.PickSummarises` | VITyarthi/tic_tac_toe.py:139-141 | because the update uses a strict greater-than, after the loop the kept move is a blank cell with the highest score and comes first in row-major order among cells with that score |
| `AIPlayer.GetMove` | VITyarthi/tic_tac_toe.py:126-143 | None exactly when the board is full; otherwise a valid move whose score is maximal among all blank cells, strictly above every earlier blank cell's score, and a move after which check_winner answers the AI whenever such a move exists |
| `InPlaceSearch.MinimaxInPlace` | VITyarthi/tic_tac_toe.py:145-175 | after the mark-recurse-erase search the shared grid equals the grid before the call, and the score equals Minimax of the original grid |
| `InPlaceSearch.GetMoveInPlace` | VITyarthi/tic_tac_toe.py:126-143 | after the search the shared grid equals the grid before the call, and the move equals GetMove of the original grid |
| `Tactics.BlockScore` | VITyarthi/tic_tac_toe.py:145-175 | when nobody has a line, the AI cannot win at once and the opponent threatens exactly one cell, taking that cell scores at least -8 |
| `Tactics.NonBlockScore` | VITyarthi/tic_tac_toe.py:145-175 | in the same position, any other blank cell scores at most -9 |
| `Tactics.GetMoveBlocksOnlyThreat` | VITyarthi/tic_tac_toe.py:126-143 | in that position the AI plays the opponent's only winning cell |
| `Tactics.WinningMarkCompletesLineThroughIt` | VITyarthi/tic_tac_toe.py:53-73 | on a board with no complete line, a mark makes its player the winner exactly when it completes a line through the marked cell |
| `Tactics.GetMoveCompletesLineWhenItCan` | VITyarthi/tic_tac_toe.py:126-143 | on a board with no complete line, if some blank cell completes a line of the AI's, the move returned is a blank cell that completes a line of the AI's through it |
| `Tactics.XCompletesOpenTopRow` | VITyarthi/tic_tac_toe.py:126-143 | with X on (0,0) and (0,1) and O on (1,0) and (1,1), X's move is (0,2) |

## Left out

- `Board.display`, `Statistics.display`: console output and screen clearing.
- The "is thinking..." message that `get_move` prints before searching: console output.
- `Board.get_state`: it only copies the grid; a Dafny sequence is already a value.
- `HumanPlayer.get_move`: an interactive `input()` loop with exception-based parsing.
- `Statistics` (`_load`, `save`, `update`): JSON file I/O and counter increments.
- `GameController`: menus, setup prompts and the game loop driven by user input and `KeyboardInterrupt`.
- The `Player` class hierarchy, names and `wins` counters: object dispatch with no algorithmic content. The AI's symbol is a parameter `ai` of the search.
- The symbol passed to `make_move` is a `Player`. The source accepts any string, but its callers only pass 'X' or 'O'.
- `depth` is a `nat`. The search only ever starts it at 0.
- `Minimax`: the [-10, 10] bound is stated for calls where depth plus blank cells is at most 10. Every call `get_move` makes has that sum at most 8. A direct call with a larger depth can score outside [-10, 10].
- `get_move` is only meant for unfinished games. Its return type is annotated `Tuple[int, int]` (tic_tac_toe.py line 126), `play_turn` unpacks the result as a pair (line 271), and `play_game` stops as soon as `is_game_over` reports the end (lines 295-308). The code itself has no guard: it returns None on a full board and searches normally on a won but unfilled board. The model follows the code, so `GetMove` is defined on every board.
- "Optimal play by both sides from the empty board ends in a draw" is not proved. It needs the value of the whole game tree, about 550,000 positions, which is beyond what the verifier can evaluate.
