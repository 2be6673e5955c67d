# Tic-Tac-Toe game engine

A Dafny model of the game-state engine of a browser Tic-Tac-Toe game. The engine lives in the
`Game` component and covers everything except rendering:

- the move history, a sequence of snapshots (a board and the cell that was clicked);
- the turn rule, which reads the history's length;
- win detection over a fixed table of eight lines;
- the three mutators: click a cell, undo, reset;
- the status line, either "X wins!"/"O wins!" or "X's turn"/"O's turn".

Everything is in `tictactoe.dfy`, in module `TicTacToe`:

- `Cell = Empty | X | O`. `Empty` stands for the unset slot of the freshly allocated board array.
- A `Board` is nine cells, row by row.
- A `Snapshot` is a board plus `move: Option<Index>`. `None` is the initial snapshot's `null`.
- The pure part is functions: `Wins`, `PlayerName`, `StatusText`, and `AfterClick`, `AfterUndo`,
  `AfterReset`. The last three give the history after each mutator.
- `ValidHistory` is the invariant of every reachable history. It starts with the empty-board
  snapshot, and each later snapshot is one legal move by the player whose turn it was.
- The class `Game` has the single field `history: seq<Snapshot>`. Its methods `HandleClick`, `Undo`
  and `Reset` update that field. Each is proved to leave exactly the history the matching function
  gives, and to keep `ValidHistory`.
- `HandleClick` copies the board into a fresh array, writes the mark into it, and appends the copy.

The model follows the code rather than a general description of the game:

- there is no draw status;
- there is no check that the cell index is in range;
- the win table is fixed to the 3 by 3 board.

## Model

| member | source | states |
|---|---|---|
| `TicTacToe.Game.constructor` | src/index.js:37-45 | a new game's history is the single snapshot with the all-empty board and no move |
| `TicTacToe.Game.Reset` | src/index.js:47-51 | the history becomes its own first snapshot alone, which is the all-empty no-move snapshot, whatever its length was; the invariant is kept |
| `TicTacToe.AfterReset` | src/index.js:47-51 | the history after reset has exactly one snapshot, equal to the old first one |
| `TicTacToe.ResetRestoresFreshGame` | src/index.js:39-51 | on a valid history, reset yields `[Initial]`: a valid history whose board is all empty, with X to move |
| `TicTacToe.PlayerName` | src/index.js:53-55 | the turn rule on the history's length; it has no contract of its own, and `TurnAfterClicks` and `CurrentBoardCounts` state what it means: X moves after an even number of accepted clicks, exactly when X and O have as many marks on the board |
| `TicTacToe.Game.CurrentPlayerName` | src/index.js:53-55 | the player to move is X exactly when both players have the same number of marks on the current board, and O exactly when X has one more |
| `TicTacToe.ClickAllLength` | src/index.js:74-87 | clicking any sequence of cells adds exactly one snapshot per accepted click and none per ignored one |
| `TicTacToe.TurnAfterClicks` | src/index.js:53-87 | from a history of one snapshot (a new or reset game), the history after any clicks has one snapshot per accepted click plus one, and it is X's turn exactly when the number of accepted clicks is even |
| `TicTacToe.Wins` | src/index.js:57-72 | the filter over the line table and the pairing with the mark; it has no contract of its own, and `WinsCorrect` states what it computes: every complete line in table order, each with its mark, and nothing else |
| `TicTacToe.WinsCorrect` | src/index.js:57-72 | the wins are exactly the complete lines of the table, in table order: the j-th entry is the line at the j-th complete position with that line's mark; the positions increase, each is complete, every complete line is listed; the result is empty iff no line is complete |
| `TicTacToe.FirstWinIsFirstLine` | src/index.js:57-72 | the first reported win is the first complete line of the table, paired with the mark in its cells |
| `TicTacToe.Game.GetWins` | src/index.js:57-72 | on the current board the result is empty iff no line is complete, and every entry is a complete line of the table |
| `TicTacToe.WinIsSymmetric` | src/index.js:58-67 | some line is complete on a board iff some line is complete on the same board turned a quarter or mirrored |
| `TicTacToe.TurnedLineComplete` | src/index.js:58-67 | a complete line maps, under a quarter turn or a mirror image of the board, to a complete line of the table |
| `TicTacToe.Accepts` | src/index.js:75-78 | a click is taken exactly when no line of the current board is complete and the clicked cell is empty |
| `TicTacToe.AfterClick` | src/index.js:74-87 | the history after a click is one snapshot longer exactly when the click is taken, and otherwise the same length; every earlier snapshot is kept (`ClickOutcome` gives the new one) |
| `TicTacToe.ClickOutcome` | src/index.js:74-87 | a click is ignored, leaving the history unchanged, iff a line is complete or the cell is taken; an accepted click appends one snapshot, keeps all earlier snapshots, records the cell as the move, writes the current player's mark there and changes no other cell |
| `TicTacToe.Game.HandleClick` | src/index.js:74-87 | the new history is the old one if the click is rejected, else the old one plus the copied board with the current player's mark at `i` and move `i`; the invariant is kept |
| `TicTacToe.ClickKeepsValid` | src/index.js:74-87 | a click on a valid history leaves a valid history |
| `TicTacToe.ClickAllKeepsValid` | src/index.js:74-87 | any sequence of clicks on a valid history leaves a valid history |
| `TicTacToe.AfterUndo` | src/index.js:89-95 | undo drops the last snapshot when there are at least two and otherwise leaves the single snapshot; the result is a prefix of the history |
| `TicTacToe.Game.Undo` | src/index.js:89-95 | the history loses its last snapshot iff it had more than one, and is unchanged otherwise; the invariant is kept |
| `TicTacToe.UndoKeepsValid` | src/index.js:89-95 | undo on a valid history leaves a valid history |
| `TicTacToe.UndoAfterClick` | src/index.js:74-95 | undo right after an accepted click gives back exactly the history before the click |
| `TicTacToe.RunKeepsValid` | src/index.js:47-95 | any sequence of clicks, undos and resets from a valid history ends in a valid history |
| `TicTacToe.SnapshotCounts` | src/index.js:39-95 | in a valid history, snapshot k holds (k+1)/2 X marks, k/2 O marks and 9-k empty cells |
| `TicTacToe.CurrentBoardCounts` | src/index.js:39-95 | the current board holds exactly one mark per snapshot after the first; X has as many marks as O or one more; it is X's turn iff the counts are equal |
| `TicTacToe.HistoryBounded` | src/index.js:74-87 | a valid history never has more than ten snapshots |
| `TicTacToe.FullBoardIsStuck` | src/index.js:74-107 | with ten snapshots every click is rejected, and when no line is complete the status reads "O's turn" |
| `TicTacToe.StatusText` | src/index.js:99-107 | the choice of status line; it has no contract of its own, and `StatusMeaning` states what it shows: the first win's mark and " wins!" when a line is complete, otherwise whose turn it is |
| `TicTacToe.StatusMeaning` | src/index.js:102-107 | with a complete line the status is the first complete line's mark followed by " wins!"; without one it is the current player followed by "'s turn"; the status announces a win iff some line is complete, and there is no other outcome |
| `TicTacToe.Game.Status` | src/index.js:102-107 | the status is "X wins!" or "O wins!" iff a line is complete on the current board, and otherwise names the current player's turn |
| `TicTacToe.TopRowGame` | src/index.js:57-107 | clicks 0, 4, 1, 5, 2 from a fresh game: X completes the top row, the only win is `(X, [0,1,2])`, the status is "X wins!", a further click is ignored, and undo gives "X's turn" |
| `TicTacToe.FilledBoardGame` | src/index.js:57-107 | clicks 0, 1, 2, 4, 3, 5, 7, 6, 8 from a fresh game fill the board with no complete line: the status reads "O's turn" and every further click is ignored |

## Left out

- Rendering is not modelled: the `Square` and `Board` components, the JSX in `Game.render`, root creation and the stylesheet import (src/index.js:1-34, 109-132). They are UI and DOM plumbing.
- React's asynchronous, batched `setState` is not modelled. Every update is synchronous and immediate, so reads of the current state and updates based on the previous state see the same history.
- Only the 3 by 3 board is modelled. The board size is computed from the component's `dimensions` (src/index.js:41), but the win table (src/index.js:58-67) and the view's `i * 3 + j` index (src/index.js:28) assume 3 by 3. The only instance is created 3 by 3 (src/index.js:132).
- `Game.HandleClick` requires `0 <= i < 9`. The code has no range check of its own, and the view only passes `row * 3 + col` for row and column below 3.
- No draw status is modelled, because the code has none. A filled board without a line shows "O's turn" (`FullBoardIsStuck`, `FilledBoardGame`).
- The code computes no draw status, stores no per-cell win markers in a snapshot, does not check the index it is given, and returns nothing from a click. The model does the same; `Accepts` only names the condition under which a click changes the history.
- Board cells hold the strings 'X' and 'O' in the code. The model uses the `Cell` values `X` and `O`, and `MarkName` gives the text used in the status line.
