# Tic-Tac-Toe game-state engine

A Dafny model of the game logic of a single-page React Tic-Tac-Toe app
(`src/App.jsx`). The model covers:

- the win detector `calculateWinner`;
- the move rule of a click on a square (`Board.handleClick`);
- the status the `Board` component shows: Winner, Draw or Next player;
- the `Game` component's history engine: the list of board snapshots
  `history`, the pointer `currentMove`, the turn derived from its parity,
  and `handlePlay`, `jumpTo` and `handleRestart`;
- the label of each history entry.

Files:

- `board.dfy` (module `Board`) holds the cell and board types and the eight
  lines, in the order the source tries them.
  - `CalculateWinner` is the source's indexed loop with an early return. It is
    proved against `Winner`, a recursive scan in the same order, and against
    the logical meaning: some player holds a whole line.
  - `HandleClick` copies the board into an array (the `slice`) and writes the
    mover's symbol into square `i` in place. Its specification is the function
    `NextSquares`.
  - `BoardStatus` is the status datatype for a board.
- `history.dfy` (module `History`) holds the class `Game`.
  - Its fields are `history` and `currentMove`.
  - Its methods are `HandlePlay`, `Play` (a click with `onPlay` bound to
    `handlePlay`), `JumpTo` and `Restart`.
  - Its functions are `XIsNext` and `CurrentSquares`.
  - The object invariant `Valid()` says two things. `currentMove` indexes
    `history`. The history is a *legal* history: it starts from the empty
    board, and each entry is what a click that was not ignored made of the
    entry before it.
  - Lemmas about such histories: mark counts, at most ten boards, uniqueness
    of the winner, a win only at the last entry and no earlier than move 5,
    and a draw only at move 9.
  - The history labels are `Describe` and `Moves`.
- `scenario.dfy` (module `Scenario`) is a client that plays one game using
  only the class contracts, plus a draw board.

A board is a value (`seq<Cell>` of length 9), so the snapshot in `history` is
never changed by a click. The new board is a fresh copy, as with
`squares.slice()`.

In the click sequence 0, 4, 1, 3, 8, 5, 2, X plays 0, 1 and 8 and O plays
4, 3 and 5. O's sixth-click move completes the middle row (3, 4, 5), so
`calculateWinner` reports O and the seventh click is ignored. The history
then holds 7 boards. `Scenario.MiddleRowThenBranch` plays this game. After it,
jumping to move 2 and clicking again leaves 4 boards.

## Model

| member | source | states |
|---|---|---|
| Board.LineWinner | src/App.jsx:246-248 | The per-line test yields a symbol exactly when that symbol fills all three squares of the line. |
| Board.WinnerFromSpec | src/App.jsx:245-250 | `WinnerFrom`, the scan from line k, returns nothing exactly when no line is held. Otherwise it returns the holder of the first held line at or after k, given that no earlier line is held. |
| Board.WinnerSpec | src/App.jsx:234-252 | `Winner`, the value of calculateWinner, is null exactly when no line is held. Otherwise it returns the holder of the first held line in the fixed order, and any first held line determines the result. |
| Board.CalculateWinner | src/App.jsx:234-252 | The loop with early return computes the same value as the scan: null iff no line is held, else the holder of the first held line. |
| Board.NextSquares | src/App.jsx:17-24 | A click is ignored exactly when some line is held or square i is taken. Otherwise the new board has the mover's symbol at i and equals the old board everywhere else. |
| Board.HandleClick | src/App.jsx:17-24 | Copy-then-assign produces exactly NextSquares: the old board with square i set to X when xIsNext, O otherwise, or nothing when the click is ignored. |
| Board.BoardStatus | src/App.jsx:26-37 | Won iff some line is held, and then by the holder of the first held line. Draw iff no line is held and every square is taken (`IsFull`, the `squares.every` test). Otherwise the next player is X iff xIsNext. The three cases exclude each other. |
| History.MarkCounts | src/App.jsx:80-87 | In a legal history the board after k moves has 9-k empty squares, (k+1)/2 X's and k/2 O's. |
| History.HistoryBounded | src/App.jsx:83-87 | A legal history never holds more than ten boards. |
| History.TurnMatchesBoard | src/App.jsx:80 | The parity-derived turn `XIsNextAt` agrees with the board: X is next exactly when X and O have placed equally many symbols. |
| History.FullOnlyAtMoveNine | src/App.jsx:27-28 | In a legal history a board is full exactly at move 9. |
| History.NoLineBeforeLast | src/App.jsx:18-20 | Every board that has a successor in a legal history has no held line: play stops at a win. |
| History.WinNeedsMoves | src/App.jsx:98-103 | A board in a legal history on which X holds a line is at move 5 or later; one on which O does is at move 6 or later. |
| History.WinnerIsUnique | src/App.jsx:245-250 | On a reachable board every held line is held by the same player, the one who moved last. |
| History.OrderIrrelevant | src/App.jsx:245-250 | On a reachable board, any held line names the value calculateWinner returns, whatever order the lines are tried in. |
| History.ReachableStatus | src/App.jsx:26-37 | On a reachable board a win ends the history, is the last mover's, and is at move 5 or later. A draw is at move 9 and ends the history. |
| History.Describe | src/App.jsx:98-108 | The label names the winner and the move when some line is held. Otherwise it is "go to move #move" for move > 0 and "game start" for move 0. |
| History.MovesOfLegalHistory | src/App.jsx:98-108 | `Moves` (the `history.map` of src/App.jsx:98-121) gives one label per history entry. In a legal history entry 0 is "game start" and every entry strictly between the first and the last is "go to move #m". Only the last entry can name a winner, and only from move 5. |
| History.Game.constructor | src/App.jsx:75-76 | The game starts with one empty board and currentMove 0, and the invariant holds. |
| History.Game.XIsNext | src/App.jsx:80 | X is next exactly when the displayed board holds as many X's as O's, and then it has an odd number of empty squares. |
| History.Game.CurrentSquares | src/App.jsx:81 | The displayed board holds 9 - currentMove empty squares. |
| History.Game.HandlePlay | src/App.jsx:83-87 | The entries after currentMove are dropped, the new board is appended and currentMove becomes its index (old currentMove + 1). The invariant is kept. |
| History.Game.Play | src/App.jsx:17-24 | On a won board or a taken square, history and currentMove are unchanged. Otherwise history becomes history[..currentMove+1] plus the clicked board, and currentMove becomes old currentMove + 1. |
| History.Game.JumpTo | src/App.jsx:89-91 | currentMove becomes the chosen index and history is unchanged. |
| History.Game.Restart | src/App.jsx:93-96 | The state is back to one empty board and currentMove 0. |
| Scenario.IgnoredClick | src/App.jsx:18-20 | After O has won, a click on an empty square leaves history and currentMove unchanged, and the status stays Won(O). |
| Scenario.FullBoardIsDraw | src/App.jsx:26-28 | X O X / X O O / O X X is a draw. |

## Left out

- Rendering is not modelled: the `Square` component, buttons, CSS and layout (src/App.jsx:3-14, 39-71, 135-231). They are presentation only.
- The history toast is not modelled: its `useEffect` with `setTimeout`/`clearTimeout` and the `showHistory` flag. It is driven by a timer and never touches `history` or `currentMove`.
- The "about" modal and `showModal` are not modelled. They are interface only.
- The status and label texts (emoji, Spanish and English words) are not modelled as strings. Status is the datatype `Status` and a label is the datatype `Description`.
- React's `useState` re-rendering is not modelled. Each pair of setter calls is one atomic update of the `Game` object.
- The "Restart game" button is shown only on a win or a draw. That gate belongs to the rendering and is not modelled; `Restart` can be called in any state, as the engine allows.
- History.Game.HandlePlay: requires the new board to be a legal click on the displayed board. Its only caller is the board's click handler (`onPlay` at src/App.jsx:23 and 144), and the legal-history invariant needs this.
- History.Game.JumpTo: requires the index to be below `|history|`. The source does no bounds check, but the history list only offers its own indices (src/App.jsx:98, 115). A guarded variant that reports an out-of-range index is not in the source and is not modelled.
- Asking for the status or the displayed board twice gives the same answer. The model gives this for free, because those queries are functions of the state, so there is no separate lemma.
