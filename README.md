# Squareg and tic-tac-toe game logic, in Dafny

This project models the game logic of a small web game repository. It has three parts.

- **The Squareg puzzle in the browser client's solo mode** (`public/game.js`).
  - A board is a size × size grid of tiles. Each tile has an `id`, a `colorIndex` (the row it started in) and a `value`.
  - A move rotates one column down or up, or one row right or left, cyclically and in place.
  - The player's board starts ordered. The target board is the ordered board scrambled by 20 to 34 random moves.
  - The round is won when every cell of the player's board has the target's colour.
  - Every move counts one toward `moveCount`, every win scores one point, and a new round resets the boards and the move count.
- **The stand-alone `SquaregBoard` class** (`squareg.js`). It has the same four rotations on its own `board`/`size` fields, plus initialisation, a 20-move shuffle, reset and resize.
- **The tic-tac-toe referee of the server** (`server.js`).
  - `checkWinner` classifies a nine-cell board as won by a mark, drawn, or open.
  - The `createGame`, `joinGame`, `makeMove` and `disconnect` handlers change a table of games indexed by game id, and the per-connection game id and mark.

The files:

- `grid.dfy` (module `Grid`) — a board as a pure value, generic in its cells.
  - The four rotations, and moves as data.
  - Scrambles (a move sequence applied in order), repetition and undo.
  - Laws of these: cell-by-cell effects, inverses, the n-fold identity, and preservation of the multiset of cells.
- `board.dfy` (module `Board`) — tiles:
  - the ordered board, and the colour-only win predicate;
  - colour counts, and distinct ids;
  - the four in-place rotations on an `array2` of tiles, proved to compute the pure rotations;
  - the nested loop that builds an ordered board.
- `solo.dfy` (module `Solo`) — the client's solo-mode fields and methods, as class `SquaregMultiplayer`.
- `squareg.dfy` (module `Squareg`) — class `SquaregBoard`.
- `tictactoe.dfy` (module `TicTacToe`) — the classifier, the game invariant, the games table (class `Server`) and a connection's handlers (class `Connection`).
- `wrappers.dfy` (module `Wrappers`) — the `Option` type.

Randomness is an input. The shuffles take the caller's sequence of moves, and `createGame` takes the game id.

## Model

| member | source | states |
|---|---|---|
| Grid.ColumnDownAt | public/game.js:1038-1045 | a column rotated down gets the old bottom tile at the top and each other tile from the row above; every cell outside the column is unchanged |
| Grid.ColumnUpAt | public/game.js:1047-1054 | a column rotated up gets the old top tile at the bottom and each other tile from the row below; every other cell is unchanged |
| Grid.RowRightAt | public/game.js:1056-1063 | a row rotated right gets the old last tile first and each other tile from its left neighbour; every other row is unchanged |
| Grid.RowLeftAt | public/game.js:1065-1072 | a row rotated left gets the old first tile last and each other tile from its right neighbour; every other row is unchanged |
| Grid.ColumnDownIs | public/game.js:1040-1044 | conversely, any grid that agrees cell by cell with the shift-down description is the column-down rotation |
| Grid.ColumnUpIs | public/game.js:1049-1053 | any grid that agrees cell by cell with the shift-up description is the column-up rotation |
| Grid.RowRightIs | public/game.js:1058-1062 | any grid that agrees cell by cell with the shift-right description is the row-right rotation |
| Grid.RowLeftIs | public/game.js:1067-1071 | any grid that agrees cell by cell with the shift-left description is the row-left rotation |
| Grid.RotateLeftUndoesRight | public/game.js:1056-1072 | shifting a sequence left undoes a right shift |
| Grid.RotateRightUndoesLeft | public/game.js:1056-1072 | shifting a sequence right undoes a left shift |
| Grid.RotatePermutes | public/game.js:1056-1072 | a cyclic shift keeps the multiset of a sequence |
| Grid.ColumnUpUndoesDown | squareg.js:109-146 | rotating a column up after rotating it down restores the board, for every index, in range or not |
| Grid.ColumnDownUndoesUp | squareg.js:109-146 | rotating a column down after rotating it up restores the board |
| Grid.RowLeftUndoesRight | squareg.js:151-188 | rotating a row left after rotating it right restores the board |
| Grid.RowRightUndoesLeft | squareg.js:151-188 | rotating a row right after rotating it left restores the board |
| Grid.InverseUndoes | public/game.js:1038-1072 | every move is undone by the opposite move on the same index |
| Grid.ScrambleAppend | squareg.js:225-243 | making the moves a and then the moves b is making a + b |
| Grid.UndoRestores | squareg.js:225-243 | the inverse moves, made in reverse order, undo any shuffle |
| Grid.RepeatDownColumn | squareg.js:109-125 | k column-down rotations rotate that column's tiles down k places and leave the rest |
| Grid.RepeatUpColumn | squareg.js:130-146 | k column-up rotations rotate that column's tiles up k places and leave the rest |
| Grid.RepeatRightRow | squareg.js:151-167 | k row-right rotations rotate that row right k places and leave the other rows |
| Grid.RepeatLeftRow | squareg.js:172-188 | k row-left rotations rotate that row left k places and leave the other rows |
| Grid.RepeatOutOfRange | squareg.js:110 | any number of rotations with an index outside [0, size) leaves the board unchanged |
| Grid.RotateRightTimesFull | squareg.js:151-167 | shifting a sequence right as many times as it is long gives it back |
| Grid.RotateLeftTimesFull | squareg.js:172-188 | shifting a sequence left as many times as it is long gives it back |
| Grid.RepeatSizeIsIdentity | squareg.js:109-188 | making the same rotation size times gives back the board |
| Grid.ColumnReplaced | public/game.js:1038-1054 | replacing a column by a rearrangement of its own tiles keeps the board's multiset of tiles |
| Grid.RowReplaced | public/game.js:1056-1072 | replacing a row by a rearrangement of its own tiles keeps the board's multiset of tiles |
| Grid.ApplyPermutes | public/game.js:1038-1072 | every rotation only rearranges tiles: the multiset of all cells is unchanged |
| Grid.ScramblePermutes | squareg.js:223-243 | any sequence of rotations keeps the multiset of all cells |
| Board.Ordered | public/game.js:276-289 | the initial board is currentSize × currentSize |
| Board.OrderedIdsDistinct | public/game.js:281-285 | the ordered board's ids lie in [0, n·n) and no two cells share one |
| Board.OrderedColorCount | public/game.js:276-289 | the ordered board holds exactly n tiles of each colour 0 .. n-1 and none of any other |
| Board.ScrambledColorCount | public/game.js:291-314 | a target scrambled from the ordered board by any moves still holds exactly n tiles of each colour 0 .. n-1 |
| Board.MatchesIffSameColors | public/game.js:486-495 | the win test holds exactly when the two boards' colour layouts are equal; ids and values play no part |
| Board.OrderedMatchesItself | public/game.js:486-495 | an ordered board matches an ordered board of the same size |
| Board.ColorsOfApply | public/game.js:1038-1072 | rotating tiles and then reading colours is reading colours and then rotating them |
| Board.ColorsOfScramble | public/game.js:291-314 | the colour layout of a scrambled board is the scrambled colour layout |
| Board.SameMovesKeepMatch | public/game.js:486-495 | two boards that match still match after the same moves are made on both |
| Board.NewOrdered | public/game.js:276-289 | the nested loop builds a fresh size × size array whose tile at (r, c) has id and value r·size + c and colour r |
| Board.RotateColumnDown | public/game.js:1038-1045 | the in-place loop leaves the array holding the column-down rotation of its old contents; an index outside [0, size) changes nothing |
| Board.RotateColumnUp | public/game.js:1047-1054 | the in-place loop leaves the array holding the column-up rotation; an out-of-range index changes nothing |
| Board.RotateRowRight | public/game.js:1056-1063 | the in-place loop leaves the array holding the row-right rotation; an out-of-range index changes nothing |
| Board.RotateRowLeft | public/game.js:1065-1072 | the in-place loop leaves the array holding the row-left rotation; an out-of-range index changes nothing |
| Solo.MoveNamed | public/game.js:456-469 | a known move name yields the move it names with the given index; every other name yields nothing, in both directions |
| Solo.MoveNamedRoundTrip | public/game.js:416-428 | each of the four names the move buttons send is understood as the move it names |
| Solo.PlayedPermutes | public/game.js:454-469 | a button press only rearranges the player's tiles |
| Solo.RoundStaysSolvable | public/game.js:548-555 | from any board reached by moves from the ordered board, undoing them and replaying the shuffle reaches the target exactly |
| Solo.SquaregMultiplayer.constructor | public/game.js:7-25 | the client starts with size 3, move count 0, score 0, not in solo mode, and empty, newly allocated boards |
| Solo.SquaregMultiplayer.SelectSize | public/game.js:107-112 | a size button sets currentSize and nothing else |
| Solo.SquaregMultiplayer.CreateInitialBoard | public/game.js:276-289 | a fresh board equal to the ordered currentSize × currentSize board |
| Solo.SquaregMultiplayer.RotateColumnDown | public/game.js:1038-1045 | the given board becomes its column-down rotation, with the index checked against currentSize |
| Solo.SquaregMultiplayer.RotateColumnUp | public/game.js:1047-1054 | the given board becomes its column-up rotation |
| Solo.SquaregMultiplayer.RotateRowRight | public/game.js:1056-1063 | the given board becomes its row-right rotation |
| Solo.SquaregMultiplayer.RotateRowLeft | public/game.js:1065-1072 | the given board becomes its row-left rotation |
| Solo.SquaregMultiplayer.CheckSoloWin | public/game.js:486-495 | the nested loop answers true exactly when every cell's colour matches the target's |
| Solo.SquaregMultiplayer.HandleSoloWin | public/game.js:497-498 | a win adds exactly one to the score and changes nothing else |
| Solo.SquaregMultiplayer.MoveSoloBoard | public/game.js:456-469 | the named rotation is made on the player's board; an unknown name or an out-of-range index changes nothing |
| Solo.SquaregMultiplayer.HandleSoloMove | public/game.js:454-484 | the named rotation is made on the player's board; the target is untouched; the move count goes up by exactly 1 whatever the move; the score goes up by 1 exactly when the boards now match |
| Solo.SquaregMultiplayer.ShuffleSoloTarget | public/game.js:291-314 | the target becomes its scramble by the drawn moves, in order; the player's board is untouched |
| Solo.SquaregMultiplayer.InitializeSoloGame | public/game.js:263-274 | two fresh, separate boards: the player's ordered, the target the scramble of the ordered board |
| Solo.SquaregMultiplayer.StartSoloMode | public/game.js:241-251 | solo mode on, score and move count 0, and a fresh round as InitializeSoloGame states |
| Solo.SquaregMultiplayer.StartNewSoloRound | public/game.js:548-555 | move count 0, score kept, the player's board ordered and a fresh scrambled target |
| Solo.SquaregMultiplayer.ResetGame | public/game.js:1027-1035 | the move count is back at 0; solo flag, score, size and both boards are unchanged |
| Solo.SquaregMultiplayer.ShowMainMenu | public/game.js:235-239 | the back-to-menu button clears the solo flag and leaves the counters and boards as they were |
| Solo.SquaregMultiplayer.LeaveGame | public/game.js:391-403 | both branches reset the game, so leaving solo mode's game keeps the solo flag and score and zeroes the move count |
| Squareg.SquaregBoard.constructor | squareg.js:7-15 | a board of the given size (3 by default), ordered, in a newly allocated array the caller may rotate |
| Squareg.StartGame | squareg.js:332-340 | page load makes a new 3 × 3 ordered game whose board array is newly allocated |
| Squareg.SquaregBoard.InitializeBoard | squareg.js:20-33 | a fresh size × size board with id = value = row·size + col and colour = row |
| Squareg.SquaregBoard.RotateColumnDown | squareg.js:109-125 | the board becomes its column-down rotation; an out-of-range index changes nothing |
| Squareg.SquaregBoard.RotateColumnUp | squareg.js:130-146 | the board becomes its column-up rotation |
| Squareg.SquaregBoard.RotateRowRight | squareg.js:151-167 | the board becomes its row-right rotation |
| Squareg.SquaregBoard.RotateRowLeft | squareg.js:172-188 | the board becomes its row-left rotation |
| Squareg.SquaregBoard.Shuffle | squareg.js:223-246 | exactly 20 drawn rotations are made in order; the multiset of tiles is kept; the inverse moves in reverse order restore the old board |
| Squareg.SquaregBoard.Reset | squareg.js:251-254 | the ordered board of the current size, whatever came before |
| Squareg.SquaregBoard.ChangeSize | squareg.js:259-263 | size becomes n and the board is the ordered n × n board |
| TicTacToe.Scan | server.js:69-76 | the lines are checked in order: a mark is returned only for a complete line with no complete line before it; if any line is complete a mark is returned; Draw exactly when no line is complete and every cell is filled; nothing exactly when no line is complete and some cell is empty |
| TicTacToe.WinnerIsFirstLine | server.js:69-74 | a reported mark completes some line, and the mark of the first complete line is the one reported |
| TicTacToe.FirstLineDecides | server.js:69-74 | when line i is complete with mark m and no line before it is complete, the scan reports m |
| TicTacToe.EmptyBoardOpen | server.js:21 | the empty board has no outcome |
| TicTacToe.CheckWinner | server.js:63-77 | the loop over the eight lines, then the full-board test, returns the board's outcome |
| TicTacToe.NewGame | server.js:20-25 | a created game has nine empty cells, its creator as sole player, X to move and no outcome, and satisfies the game invariant |
| TicTacToe.PlayedKeepsInv | server.js:49-51 | an accepted move keeps the game invariant: nine cells, one or two players, X ahead of O by one exactly when O is to move, and the stored outcome equal to the board's |
| TicTacToe.PlayedFillsOneCell | server.js:49-50 | an accepted move writes the mover's mark into the chosen empty cell and no other, hands the turn to the other mark, and keeps the players |
| TicTacToe.Server.constructor | server.js:12 | the games table starts empty |
| TicTacToe.Connection.constructor | server.js:15-16 | a connection starts with no game and no mark |
| TicTacToe.Connection.CreateGame | server.js:18-30 | the table maps the new id to a fresh game (replacing any game already there); the creator's game is that id and its mark X; the game invariant holds for every game |
| TicTacToe.Connection.JoinGame | server.js:32-43 | joining succeeds exactly when the game exists with exactly one player; then the joiner is appended and plays O; otherwise nothing changes |
| TicTacToe.Connection.MakeMove | server.js:45-53 | a move is accepted exactly when the game exists, has no outcome, the cell is empty and it is the mover's turn; then only that game changes, to the played game; otherwise nothing changes |
| TicTacToe.Connection.Disconnect | server.js:55-60 | the connection's game is removed when its id is non-empty and it exists; no other game is touched |

## Left out

- Rendering, animation, button and tile DOM updates, the player-name field, the game timer, and `alert`/`emit` messages. These are presentation only. A failed join's error message is modelled as the `false` result of `JoinGame`.
- The three-second `setTimeout` between `handleSoloWin` and `startNewSoloRound` (public/game.js:503-506). The model treats these as two steps the caller makes in turn. Moves made during the delay behave as `HandleSoloMove` states, and can score again.
- `Math.random`: the shuffles take their moves from the caller, and `createGame` takes the game id from the caller.
- Solo.SquaregMultiplayer.ShuffleSoloTarget: the source draws each move's index in [0, currentSize); the contract accepts any index.
- Squareg.SquaregBoard.Shuffle: likewise, the contract accepts any index.
- Socket.IO and Express plumbing: `socket.join`, `io.to(...).emit` and `server.listen`. They carry messages and change no modelled state.
- The client's socket event handlers (public/game.js:142-200). They write `playerId`, `roomId` and `gameState` from server messages; these fields are not part of the model.
- The client's multiplayer branch and its room screens. They also write the shared `moveCount` field: a local increment per multiplayer move (public/game.js:444) and a copy of the server's count (public/game.js:870). These writes are not modelled, because the model covers solo play only.
- Solo.SquaregMultiplayer.ResetGame: models only the reset of `moveCount`. Its writes to `gameState`, `playerId`, `roomId` and `gameStartTime`, and the timer it stops, are outside the model.
- `drawingapp.js`, a canvas drawing app unrelated to the game logic.
- The client's rotations (public/game.js:1038-1072) and `checkSoloWin` (public/game.js:486-492) read `this.currentSize` rather than the board's own dimensions. The model requires each board to be currentSize × currentSize (`InRound`); boards of another size are not modelled. The client reaches them this way: `leaveGame` in solo mode keeps `isSoloMode` set (public/game.js:392-395), the player picks another size in the lobby (public/game.js:107-112), and a later game's rotation buttons are still routed to `handleSoloMove` (public/game.js:119, 436). With a smaller currentSize, the rotations move a line inside the top-left currentSize × currentSize block and `checkSoloWin` compares only that block. With a larger currentSize, the rotations read and write cells the board does not have: some throw, and some first move tiles or lengthen a row with `undefined` cells. None of this is modelled.
- JavaScript boards are arrays of separately allocated rows holding tile objects. The model uses one `array2` per board and tiles as values. No tile is ever mutated, and no row is shared between boards.
- Move indices from `parseInt` that are not numbers (NaN) are not modelled. Every move button carries a valid row or column number.
- `makeMove` with an index outside 0..8 is a precondition. JavaScript would add a stray property to the board array.
- A game object in the table is updated in place in the source. The model replaces the table entry with the updated value, which is equivalent because no handler keeps a reference to a game across calls.
- A connection with no game looks up the key "null", as JavaScript's `games[null]` does. No move is accepted there, because such a connection has no mark.
