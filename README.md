# Tic-tac-toe rule engine and time-travel history

This is a Dafny model of the game logic in `src/App.tsx`, a React tic-tac-toe game that records a history of moves you can jump back through. The model has three parts:

- **`Rules`** (`rules.dfy`):
  - cells, boards and the eight winning lines;
  - the win evaluator `calculateWinner`, as a loop-based method proved equal to a pure function `Evaluate`;
  - the draw test and the status line, as the datatype `Winner(p) | Draw | Next(p)`;
  - `Board.handleClick`, which rejects or accepts a click on a square. It copies the board into an array (`slice()`), writes one square, and returns the copy that would go to `onPlay`. A rejected click returns `None`.
- **`History`** (`history.dfy`):
  - the invariant that every history the game builds satisfies (`ReachableHistory`): it starts at the empty board, and each entry is a legal move from the entry before it;
  - move counting;
  - the changed square (`findIndex`) and its 1-based row and column labels, using JavaScript's `Math.floor` and `%` semantics;
  - the move list and its ascending/descending order.
- **`GameState`** (`game.dfy`):
  - the `Game` component as a class with fields `history`, `currentMove` and `isAscending`;
  - the transitions `HandlePlay`, `JumpTo`, `ToggleOrder`, and `Click`, which connects `handleClick` to `handlePlay`;
  - a five-move game written as client methods: X wins on the top row, a click after the win is ignored, the player jumps back to move 2, and a new branch is started from there.

`Game.Valid()` is the object invariant: the pointer is a valid index and the history is reachable. `Click`, `JumpTo` and `ToggleOrder` preserve it. `HandlePlay` accepts any board, as `handlePlay` does, and guarantees `Valid()` afterwards only when the new board is a legal move.

Two consequences of the code that the model makes explicit:

- One move can complete two lines for the player who moves. Only the first line in scan order is reported, and so only it is highlighted. `DoubleLineReportsTheFirst` shows this on the full board where X's last move completes both the top row and the left column.
- A board where both marks have a won line never arises in play, because `handleClick` refuses any move on a won board. On such a board the first won line in scan order is reported, whichever mark holds it. See `FilledLineIsReported` and `TwoWonRowsReportTheFirst`.
- In `BranchAfterWin`, after jumping back to move 2, a click on square 4 is ignored because O holds it. The branch starts on square 3 instead.

## Model

| member | source | states |
|---|---|---|
| `Rules.CalculateWinner` | src/App.tsx:179-197 | the loop over the eight lines, with its early return, yields exactly the verdict `Evaluate` gives (first won line in scan order, or no winner with an empty list); the verdict is computed by `Evaluate`, through `WinFrom` |
| `Rules.NoLineNoWinner` | src/App.tsx:190-196 | when no line holds three equal marks, the winner is null and the winning squares are empty |
| `Rules.FirstMatchWins` | src/App.tsx:180-194 | when line j is won and no earlier line is, the verdict is line j's mark and its three indices: rows first, then columns, then 0-4-8 before 2-4-6 |
| `Rules.WinnerHasWinningLine` | src/App.tsx:180-196 | a winner is reported exactly when some line is won; the reported squares are one of the eight lines and all three hold the winner's mark; no winner implies an empty list |
| `Rules.FilledLineIsReported` | src/App.tsx:190-194 | a line filled with one mark always yields a winner; the winner is that mark on that line if no earlier line is won |
| `Rules.TwoWonRowsReportTheFirst` | src/App.tsx:180-194 | on a board with both the top row (X) and the middle row (O) won, the top row is reported |
| `Rules.DoubleLineReportsTheFirst` | src/App.tsx:190-193 | on the full board where X's last move completes both the top row and the left column, only the top row is reported, and the status is Winner(X) rather than Draw |
| `Rules.DrawExactly` | src/App.tsx:45 | isDraw holds exactly when every square is marked and no line is won; computed by `IsDraw`, `IsFull` |
| `Rules.StatusPrecedence` | src/App.tsx:47-54 | the status is Winner exactly when a line is won (even on a full board), and the player shown owns that line; Draw exactly when the board is full and unwon; otherwise Next with X iff xIsNext; computed by `StatusOf`, `PlayerFor` |
| `Rules.HandleClick` | src/App.tsx:28-42 | the click is rejected (onPlay not called) exactly when the square is occupied or the board has a winner; an accepted click yields the board with square i set to X when xIsNext and O otherwise, and every other square unchanged |
| `History.ReachableCounts` | src/App.tsx:105-108 | in a reachable history, entry k holds exactly k marks: (k+1)/2 crosses and k/2 noughts, so the turns alternate and X moves first |
| `History.ReachableBounds` | src/App.tsx:30-32 | a reachable history has at most ten entries, and no entry except the last has a won line |
| `History.TruncateAppend` | src/App.tsx:105-108 | cutting a reachable history after the viewed move and appending a legal move gives a reachable history |
| `History.FindChangedFrom` | src/App.tsx:127 | findIndex returns -1 exactly when the boards agree on every square from `from` on; otherwise it returns the first square that differs, and all earlier squares agree |
| `History.StepLabel` | src/App.tsx:125-131 | for a legal move, changedIndex is the square just played (empty before, the mover's mark after, all others unchanged); row and column labels lie in 1..3 and (row-1)*3+(col-1) gives the square back; computed by `ChangedIndex`, `RowLabel`, `ColLabel`, `JsRemainder` |
| `History.UnchangedLabel` | src/App.tsx:127-131 | for two equal boards changedIndex is -1, and the row and column labels are both 0 under JavaScript arithmetic |
| `History.MovesLabelled` | src/App.tsx:117-137 | the move list has one entry per history entry, in order, and exactly the viewed move is marked current; move 0 is the start of the game; move k is labelled with the 1-based column/row of the square it filled with the mover's mark; computed by `Moves`, `Describe` |
| `History.ReverseIndex` | src/App.tsx:156 | the reversed list has the same length, and its k-th entry is the original's entry at length-1-k; computed by `Reverse` |
| `History.ReverseTwice` | src/App.tsx:156 | reversing twice gives the original list |
| `History.SortOrder` | src/App.tsx:156 | the descending list is the ascending list read backwards; flipping the order flag reverses the list shown, in either direction; computed by `SortedMoves` |
| `GameState.Game.constructor` | src/App.tsx:97-99 | a new game has the one empty board as its history, is viewed at move 0 and lists moves ascending; the invariant holds |
| `GameState.Game.HandlePlay` | src/App.tsx:105-109 | the new history is the old one up to the viewed move plus the new board, and the pointer moves to its last entry (the old pointer plus one); the invariant is kept when the board is a legal move |
| `GameState.Game.JumpTo` | src/App.tsx:113-115 | only the pointer changes, to the chosen move; the history is untouched, the invariant is kept, and the turn becomes X iff the move is even; computed by `Game.XIsNext` |
| `GameState.Game.ToggleOrder` | src/App.tsx:165 | the invariant is kept, the order flag flips, and the move list shown becomes the reverse of the one shown before; computed by `Game.MoveList` |
| `GameState.Game.Click` | src/App.tsx:30-40 | a click on an occupied square or a won board leaves the history and pointer unchanged; otherwise the history is cut after the viewed move and the viewed board with the mover's mark in square i is appended; the invariant is kept; the viewed board is `Game.CurrentSquares` (src/App.tsx:101) and the mover is `PlayerToMove`, X on even moves (src/App.tsx:100) |
| `GameState.OpeningMoves` | src/App.tsx:100 | clicks on squares 0, 4 and 1 from a new game produce X, O, X in those squares, one board per move |
| `GameState.TopRowGame` | src/App.tsx:44-49 | after further clicks on squares 5 and 2, the viewed board reports X as winner on squares 0, 1, 2, and the status is Winner(X); computed by `Game.Status` |

## Left out

- Rendering is not modelled: the `Square` component, the grid of buttons, the row and column header numbers, the `<li>`/`<button>` move items and the CSS classes that highlight the winning squares. They carry no rule content.
- The Spanish status strings are not modelled. The status is the datatype `Status`, and a move label is the datatype `Description` rather than text.
- The label of move 0 when it is the viewed move (src/App.tsx:140) is not modelled. It prints `col` and `row`, which are undefined there; this is a presentation quirk.
- React's `useState` is not modelled. Each transition is one method that assigns the fields together; asynchronous re-render batching is not modelled.
- `Game.JumpTo` requires a move index inside the history. The user interface only offers targets taken from the history itself.
- `Rules.HandleClick` and `Game.Click` take a square index in 0..8 (the type `Index`). The grid only produces those indices.
