# Sokoban game-state engine in Dafny

This project models the game-state engine of a terminal Sokoban game written
in C (`sokoban.c` with the types of `sokoban.h`). A level is a grid of
`rows * cols` cells held in two row-major layers:
- the *field* layer holds empty cells, walls and goal points;
- the *box* layer holds the boxes.

The engine covers five operations:
- moving the player, which pushes a box when there is one;
- recording each move in an undo list, newest first, that keeps at most 32 entries;
- taking back the newest move;
- checking whether every goal holds a box;
- loading a level file and writing or reading a save snapshot.

The project has five modules:

- `SokobanTypes` (`sokoban_types.dfy`): the cell codes, the directions, the
  undo entry, the constants `MaxStepsUndo = 32` and `MaxLevel = 20`.
- `Rules` (`rules.dfy`): the engine as a specification over values.
  - A `State` is a `Board` (level, size, player, both layers), the step count and the history.
  - `Moved` and `Undone` are the states after a move and after an undo.
  - `Valid` is the full invariant. The state is well-formed and every history entry can be taken back, one after the other.
  - The lemmas prove what moves and undos preserve and how they relate.
- `LevelFormat` (`level_format.dfy`): level decoding and the save snapshot,
  over in-memory sequences of integers.
- `Engine` (`game.dfy`): the imperative engine.
  - `StepList` is the undo list.
  - `Game` is the game record, with `field` and `boxes` as arrays updated in place.
  - The methods that move, undo, check for a win, load and save are proved
    against the functions of `Rules` and `LevelFormat`. Their helpers that
    write single cells (`PushBox`, `TakeBack`) state the writes directly.
- `SourceFindings` (`findings.dfy`): the move guard exactly as the C code
  evaluates it. Concrete boards show where it differs from the corrected
  guard `Rules.CanMove` that the engine uses.

The model checks the target column as `0 <= x < cols` and bounds-checks the
push destination before reading it; see "## Findings". Level loading refuses
a non-positive size and a start cell that is off the grid, on a wall or on a
box, which the C code does not check. Those checks make the board invariant
hold from the first move on.

## Model

| member | source | states |
|---|---|---|
| SokobanTypes.DirectionCode | sokoban.h:53-59 | the five directions have the enum values 0-4, and only the no-move direction has value 0 |
| SokobanTypes.DirectionCodesDistinct | sokoban.h:53-59 | distinct directions have distinct codes |
| SokobanTypes.Delta | sokoban.c:34-37 | the no-move direction has displacement (0, 0); every other direction moves to an adjacent cell; Up and Down change only the row |
| Rules.PushStep | sokoban.c:194-205 | recording an entry puts it first, keeps the older entries in order and drops the oldest one once 32 are exceeded; when the old history holds at most 32 entries, so does the new one |
| Rules.CanMove | sokoban.c:39-45 | the corrected guard: the target is on the grid and not a wall, and a box on it has a next cell that is on the grid, not a wall and holds no box (the column test is `x < cols`, see Findings) |
| Rules.Moved | sokoban.c:30-58 | the state s_move_player leaves: the old state when CanMove refuses; otherwise the box on the target pushed one cell on, the entry recorded with PushStep, the player moved by the delta and one more step counted (its properties are the lemmas below) |
| Rules.Undone | sokoban.c:207-224 | the state s_step_back leaves on a non-empty history: the pushed box pulled back, the player on the saved cell, one step less; level, size, field and layer length are kept and the history is one entry shorter |
| Rules.Valid | sokoban.c:207-224 | the invariant that makes every undo safe: the state is well-formed and, unless the history is empty, its newest entry is adjacent to the player on the grid with a box beyond the player when it pushed one, and the undone state satisfies the invariant in turn |
| Rules.AllGoalsFilled | sokoban.c:60-70 | every goal cell of the field layer holds a box in the box layer |
| Rules.MoveRejected | sokoban.c:39-45 | a move to a cell off the grid, onto a wall, or onto a box whose next cell is off the grid, a wall or a box leaves the whole state unchanged; a move leaves the state unchanged exactly when it is not allowed |
| Rules.MoveAccepted | sokoban.c:46-56 | an accepted move shifts the player by the direction's unit delta, adds 1 to the step count, keeps level, size and field, clears the box from the target cell and puts it one cell further on while no other cell changes, and prepends the entry (prior row, prior column, box pushed) to the history, which then holds at most 32 entries |
| Rules.MovedWellFormed | sokoban.c:39-56 | after any move the layers hold only their own codes, no box stands on a wall, the player is on the grid and on neither a wall nor a box, and the history holds at most 32 entries |
| Rules.MovedKeepsBoxCount | sokoban.c:46-51 | a move keeps the number of boxes |
| Rules.MovePreservesValid | sokoban.c:30-58 | a move keeps the full invariant: each history entry can still be taken back in turn |
| Rules.UndoAfterMove | sokoban.c:207-224 | undo right after an accepted move restores player, boxes and step count, and the history loses only the entry the move evicted |
| Rules.ValidTruncated | sokoban.c:226-233 | dropping the oldest history entries keeps every remaining entry undoable |
| Rules.UndoPreservesValid | sokoban.c:207-224 | undo removes exactly the newest entry, counts one step less, puts the player on the saved cell, keeps the field and the number of boxes, and keeps the full invariant |
| Rules.CountBoxesUpdate | sokoban.c:48-49 | writing one cell of the box layer changes the box count by what the write removes and adds |
| Rules.BoxLayerChangeCount | sokoban.c:46-51 | moving one box to a cell without a box keeps the box count |
| Rules.PushTargetsDistinct | sokoban.c:48-49 | the target cell and the push destination are different cells |
| Rules.LayersAfterPush | sokoban.c:48-49 | moving a box to a cell that is not a wall keeps the layers well-formed |
| Engine.StepList.constructor | sokoban.c:176-182 | a new list is empty and its counter is 0 |
| Engine.StepList.Add | sokoban.c:194-205 | the new entry becomes the first one and the length counter grows with the list |
| Engine.StepList.RPop | sokoban.c:226-233 | the last (oldest) entry is removed and the length counter follows; an empty list is left alone |
| Engine.StepList.Record | sokoban.c:52-53 | s_add_step followed by s_list_rpop over the cap gives exactly PushStep of the old list |
| Engine.StepList.PopFirst | sokoban.c:208-213 | an empty list gives nothing and stays empty; otherwise the first entry is returned and removed and the counter follows |
| Engine.Game.constructor | sokoban.c:15-21 | a new game is at level 1 with a new empty undo list and no steps |
| Engine.Game.MoveAllowed | sokoban.c:34-45 | the guard accepts exactly the moves CanMove allows, and yields the target index and, for a push, the destination index, both inside the layers |
| Engine.Game.MovePlayer | sokoban.c:30-58 | the new state is Moved(old state, d) and the full invariant is kept; a refused move leaves box_moved as it was, an accepted one sets it to the flag of the entry it records |
| Engine.Game.Advance | sokoban.c:46-56 | the accepted branch: the box on the target moves to the destination, the entry (prior position, box pushed) is recorded, the player moves by the delta and the step count grows by 1 |
| Engine.Game.PushBox | sokoban.c:48-49 | the target cell loses its box and the destination cell gains one; no other cell changes |
| Engine.Game.StepBack | sokoban.c:207-224 | with an empty history nothing changes; otherwise the new state is Undone(old state) and the full invariant is kept; box_moved is left as it was |
| Engine.Game.TakeBack | sokoban.c:212-221 | the step count drops by 1, a pushed box is pulled back from one cell beyond the player onto the player's cell, the player goes to the saved cell, and box_moved is left as it was |
| Engine.Game.LevelComplete | sokoban.c:60-70 | the result is true exactly when every goal cell holds a box, in particular when there are no goals; nothing is modified |
| Engine.Game.ResetLevel | sokoban.c:72-82 | the step count is 0 and the undo list is new and empty; the result is the decoded level; on success the game is that level with the player on its start cell |
| Engine.Game.LoadLevel | sokoban.c:114-139 | the result is DecodeLevel of the file contents; a refused file changes nothing; an accepted one is installed in new arrays and satisfies the invariant |
| Engine.Game.Install | sokoban.c:116-122 | the decoded board becomes the game's level, size, player and layers |
| Engine.Game.DecodeCells | sokoban.c:123-139 | the arrays hold the field and box codes of each of the first n cell bytes |
| Engine.Game.SaveGame | sokoban.c:142-155 | the snapshot is the five header values, then the field layer, then the box layer |
| LevelFormat.DecodeCell | sokoban.c:126-138 | codes 1 and 2 give that field and no box, 3 gives an empty cell with a box, 4 a goal with a box, anything else an empty cell; the field code is in {0,1,2} and the box code in {0,3} |
| LevelFormat.CellRoundTrip | sokoban.c:126-138 | decoding then encoding a code 0-4 gives it back, and encoding then decoding a well-formed (field, box) pair gives it back |
| LevelFormat.FieldLayer | sokoban.c:123-139 | one code per cell byte, always 0, 1 or 2: a wall exactly where the byte is 1 and a goal exactly where it is 2 or 4 |
| LevelFormat.BoxLayer | sokoban.c:123-139 | one code per cell byte, always 0 or 3: a box exactly where the byte is 3 or 4 |
| LevelFormat.DecodedLayers | sokoban.c:123-139 | whatever the file holds, the decoded layers hold only their own codes and put no box on a wall |
| LevelFormat.DecodeLevel | sokoban.c:114-139 | a missing file gives NotFound and a header shorter than five values Truncated; with a full header, BadSize exactly when rows or cols is not positive, BadStart exactly when the size is positive and the start cell is off the grid or decodes to a wall or a box, and success exactly when neither applies; a decoded board carries the header values and the decoded cells and is well-formed |
| LevelFormat.DecodeEncodeLevel | sokoban.c:114-139 | decoding the level file written for a playable board gives that board back |
| LevelFormat.Deserialise | sokoban.c:157-174 | reading a snapshot either gives a board or reports that the data is truncated |
| LevelFormat.Serialise | sokoban.c:142-155 | the snapshot of a board: the five header values, the field layer, then the box layer, so its length is five plus both layers |
| LevelFormat.DeserialiseSerialise | sokoban.c:142-174 | reading back a written snapshot restores level, size, player and both layers exactly |
| LevelFormat.SerialiseDeserialise | sokoban.c:157-174 | whatever reads successfully is exactly the snapshot of the board read, followed by any trailing data |
| SourceFindings.GuardAsWritten | sokoban.c:39-45 | the guard exactly as written, evaluated left to right: the column test admits `x == cols` and the push destination is read without a bounds test; None when a read falls outside the layers |
| SourceFindings.GuardAsWrittenOnGrid | sokoban.c:39-45 | the guard as written accepts every move the corrected guard accepts, and where the cells it reads lie on the grid it accepts only those |
| SourceFindings.ColumnTestAdmitsOffGrid | sokoban.c:39-40 | on a playable 2x2 board, the column test as written lets the player move Right from the last column, onto the first cell of the next row |
| SourceFindings.PushReadsPastEnd | sokoban.c:41-45 | pushing a box that stands on the right edge makes the guard as written read past the end of the layers |
| SourceFindings.CanMoveStaysOnGrid | sokoban.c:39-45 | an allowed move targets a cell on the grid inside the layers and pushes a box only to such a cell |

## Left out

- The user interface of main.c (ncurses setup, menus, the key loop, the
  running, paused and completed flags) and the rendering functions
  `s_init_colors`, `s_draw_level` and `s_draw_block` are not modelled. They
  only call the terminal library.
- `MaxLevel` is declared for completeness, but only main.c's next-level menu
  reads it, so no member of the model uses it.
- File I/O is replaced by values. A level file is an `Option<seq<int>>`,
  where `None` means the file cannot be opened; a snapshot is a `seq<int>`.
  The path built with `sprintf`, the native size and byte order of `int`,
  and the one-byte width of a cell are not modelled.
- malloc and free and the doubly linked `prev`/`next` pointers are not
  modelled. The undo list is a sequence of entries next to its `length`
  counter. So the model has no dangling `last` after an undo empties the
  list, and no NULL dereference in `s_list_rpop` on a one-entry list.
  `s_free_steps` is not modelled.
- `s_init_game` leaves the layers uninitialised. The model's constructor
  starts with empty layers, and the game is `Valid` only after a level
  loads.
- Engine.Game.MovePlayer requires a direction other than the no-move one,
  which the key loop never passes. Called with it, the C code would record a
  zero-length move.
- Engine.Game.LoadLevel: the C code does not check the header. It crashes on
  a missing file, leaves fields undefined on a short header, and accepts a
  non-positive size or a bad start cell. The model returns `NotFound`,
  `Truncated`, `BadSize` or `BadStart` and leaves the game unchanged.
- A cell byte missing at the end of a level file reads as 0, as the C code's
  zero-initialised byte does after a failed read.
- `s_load_game` applied to a running game is not modelled as a method.
  Only the snapshot format is modelled (`Serialise`, `Deserialise` and
  their round trips). The C code keeps the old undo list and step count when
  it loads a snapshot, and it does not check what it reads.
- Integers are unbounded. The model does not capture 32-bit overflow of
  `steps_count` or of `rows * cols`.
- The `box_moved` field is kept, but the invariant says nothing about it
  between moves.

## Findings

| source | as written | input that shows it | evidently intended | confidence | as-written member | corrected member |
|---|---|---|---|---|---|---|
| sokoban.c:39-40 | the column test is `player_x > game->cols`, so column `cols` passes | 2x2 empty board, player at row 0 column 1, move Right: the test passes, the cell read is row 1 column 0, and the player ends at column 2 | the target column lies in `0 .. cols - 1` | high, not executed | SourceFindings.ColumnTestAdmitsOffGrid | SourceFindings.CanMoveStaysOnGrid |
| sokoban.c:41-45 | the cell two steps away is read without a bounds test | 1x2 board, player at column 0, box at column 1, move Right: index 2 of the two-cell layers is read | a box can only be pushed onto a cell on the grid | high, not executed | SourceFindings.PushReadsPastEnd | SourceFindings.CanMoveStaysOnGrid |
