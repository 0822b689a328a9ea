# Minesweeper board rules, modelled in Dafny

This project models the game logic of a Minesweeper game written in Go on the
ebiten engine (`main.go`). It covers:

- the board a new game starts from: mines placed by rejection sampling, and every
  safe cell numbered with the mines around it;
- the flood fill behind a left click on a closed cell (`openAndExpand`);
- the chord on an open cell (`checkSurroundFlags` and `expandAround`);
- the flag toggle of a right click and the end-of-frame win test;
- the settings panel, where the next game's rows, columns and mine count are typed
  in and checked (`saveInputAndExitEdit` and the keyboard handling);
- one frame of the game loop (`Game.Update`), which puts these together and
  restarts the game from the restart button.

The board is a class over a two-dimensional array of cells, as in the game.
Each method that changes it is proved to move the board's state exactly as a rule
function says. The rule functions are written on an abstract board state: the
open, flagged and focused cells, the two counters and the two game-over flags.
The lemmas about the rule functions carry the game's guarantees:

- A flood fill opens exactly the cells a flood from the clicked cell reaches, and
  only closed, unflagged, safe cells.
- `open` counts the opened safe cells.
- A flood never stops beside an opened empty cell.
- The chord stops at the first closed unflagged mine in loop order.
- Two right clicks restore a cell.
- After every frame that acts on a cell of a game not yet over, the game is won exactly when every safe cell is open and no mine is.

Modules, one file each:

- `Geometry`: positions, the 3x3 window in the game's loop order, and mine counts.
- `Placement`: mine placement from a random stream.
- `Flood`: the cells a flood fill reaches.
- `Rules`: the rule functions and their properties.
- `Strconv`: `strconv.Atoi` and `strconv.Itoa`.
- `Settings`: panel actions as functions.
- `Minesweeper`: the `Board` and `SettingsPanel` classes.
- `GameLoop`: the `Game` class and the frame.

The random stream, the keys released in a frame and whether the cursor's blink
period has passed are parameters. Nothing -- not the clock, the mouse nor the
random number generator -- is read from the environment.

The settings panel checks the mine count only against the size at the moment the
count itself is saved:

- Shrinking the rows later leaves more mines than cells. The rows of the default
  16 x 16 board with 40 mines can be cut to 2 (`Settings.MinesBoundNotKept`).
- The next restart then hands `NewBoard` more mines than cells. No random stream
  lets its placement loop finish (`GameLoop.ShrunkRestartNeverEnds`).
- The model states this as `Game.Update`'s precondition on a restarting frame.
  The random stream must fit the new board, which no stream can do in that case.

## Model

| member | source | states |
|---|---|---|
| Geometry.NeighborBound | main.go:179-192 | a cell's `neighbor` value, the mines in its boundary-clipped 3x3 window, lies in 0..8 |
| Geometry.CountInZero | main.go:179-192 | the window count of a set is 0 exactly when no on-grid cell adjacent to the centre is in the set |
| Geometry.AdjacentInAround | main.go:181-184 | every on-grid neighbour of a cell is visited by the `dy`-then-`dx` loops, at index `3*(dy+1)+(dx+1)`, and every on-grid window entry is a neighbour |
| Geometry.CellsCard | main.go:527 | the grid has exactly `rows*cols` cells |
| Placement.PlacedShape | main.go:124-130 | rejection sampling places only drawn positions, at most `mines` of them, and every drawn position while it has placed fewer |
| Placement.PlacedCount | main.go:124-130 | when the draws hold at least `mines` distinct positions, exactly `mines` distinct mines are placed |
| Placement.PlacedFull | main.go:124-130 | once `mines` mines are placed, later draws change nothing, so the loop may stop there |
| Placement.DrawsFitBound | main.go:124-130 | the placement loop can finish only when the grid has at least as many cells as mines |
| Minesweeper.PlaceMines | main.go:119-130 | the grid is `rows x cols` and fresh; its mines are the sampled set of exactly `mines` on-grid positions; every cell is closed, unflagged and unfocused |
| Minesweeper.SettingsPanel.constructor | main.go:104-113 | the panel starts with the board's size and mine count and no field edited |
| Minesweeper.Board.constructor | main.go:87-139 | `NewBoard`: exactly `mines` distinct mines, placed as sampling from the stream places them; nothing open or flagged; `flags == mines`, `open == 0`, game not over; every cell holds the mine count of its window; the board state is consistent |
| Minesweeper.NewDefaultBoard | main.go:344-346 | the starting board is the 16 x 16 board with 40 mines and 25-pixel cells, built as `NewBoard` builds it |
| Minesweeper.Board.LayNumbers | main.go:132-139 | every safe cell's `neighbor` becomes its window's mine count; mines keep 0 and nothing else changes |
| Minesweeper.Board.CountNeighbors | main.go:179-192 | the result is the number of mines in the boundary-clipped 3x3 window around (x, y) |
| Minesweeper.Board.CheckSurroundFlags | main.go:278-291 | true exactly when the flags in the window around (x, y) number the cell's `neighbor` value |
| Minesweeper.Board.OpenAndExpand | main.go:248-275 | the board becomes `Rules.Expanded`: the flood region from (x, y) is opened and `open` grows by its size; the recursion terminates on the number of openable cells |
| Minesweeper.Board.ExpandAround | main.go:294-329 | the board becomes `Rules.Chorded`: on a flag match, the window is flood-filled in loop order up to the first closed unflagged mine, which is opened and loses the game; on a mismatch, only its closed unflagged cells are focused |
| Minesweeper.Board.Explode | main.go:503-507 | the mine is opened, the game is lost, and `open` does not move |
| Minesweeper.Board.ToggleFlag | main.go:518-525 | the cell's flag flips and `flags` moves the other way by one |
| Minesweeper.Board.CheckWin | main.go:527-530 | a game not over whose `open` count equals `rows*cols - mines` becomes won; the state stays consistent |
| Minesweeper.Board.ClickCell | main.go:499-531 | the board becomes `Rules.Pressed`: nothing once the game is over; otherwise the left press, the toggle of a cell still closed, then the win test; the state stays consistent |
| Flood.RegionNotFree | main.go:250-258 | a flood from a cell that is off the grid, open, flagged or a mine reaches nothing |
| Flood.RegionSingle | main.go:260-264 | a flood from an openable numbered cell opens that cell alone |
| Flood.RegionDecompose | main.go:260-273 | a flood from an openable empty cell is that cell plus the floods from its eight neighbours, run one after the other in loop order |
| Flood.RegionClosed | main.go:264-273 | a flood region is closed: every openable neighbour of an empty cell in it is in it |
| Flood.RegionUnionStep | main.go:266-273 | floods run one after the other: each adds the region of its start among the cells still openable, and the parts are disjoint |
| Rules.InitialConsistent | main.go:96-100 | a freshly built board's state is consistent |
| Rules.OpenBound | main.go:527 | `open` never exceeds the number of safe cells, and equals it exactly when every safe cell is open |
| Rules.ExpandedNoop | main.go:248-258 | `openAndExpand` on a cell off the grid, open, flagged or a mine changes nothing |
| Rules.ExpandedOpens | main.go:254-274 | a flood only opens closed, unflagged, safe cells; it leaves flags, focus, `flags` and the game-over flags alone; `open` grows by the number of cells newly opened; an openable clicked cell is opened |
| Rules.ExpandedClosed | main.go:264-273 | after a flood, every on-grid, unflagged, safe neighbour of a cell it opened with `neighbor == 0` is open |
| Rules.ExpandedZero | main.go:260-273 | on an openable empty cell, `openAndExpand` opens it, then runs the eight neighbour floods in loop order |
| Rules.ExpandedNumbered | main.go:260-264 | on an openable numbered cell, `openAndExpand` opens that cell and counts it, nothing more |
| Rules.ExpandedConsistent | main.go:260-261 | a flood keeps the board state consistent, with `open` still counting the open safe cells |
| Rules.FloodedUnion | main.go:296-309 | floods run one after the other open the union of their regions |
| Rules.FirstHit | main.go:296-307 | the index of the first closed unflagged mine of the window in loop order, with none before it |
| Rules.ChordedHit | main.go:295-308 | a matched chord that meets a closed unflagged mine loses: that mine, and no other new mine, is opened; flags are untouched; every on-grid neighbour before it is open or flagged |
| Rules.ChordedClear | main.go:295-312 | a matched chord that meets no mine does not end the game, opens no mine and leaves every on-grid neighbour open or flagged |
| Rules.ChordedMismatch | main.go:313-327 | a mismatched chord changes nothing but focus, adding exactly the on-grid, closed, unflagged neighbours |
| Rules.ChordedConsistent | main.go:294-329 | a chord keeps the board state consistent |
| Rules.ChordedOpens | main.go:294-312 | a chord never closes a cell or lowers `open` |
| Rules.ToggledTwice | main.go:518-525 | two toggles restore the cell's flag and the `flags` counter |
| Rules.ToggledConsistent | main.go:518-525 | toggling a closed on-grid cell keeps `flags == mines - flagged cells` and the rest of the invariant |
| Rules.PressedOver | main.go:499 | once the game is over, a click changes nothing |
| Rules.PressedFlagged | main.go:502 | a left press on a flagged cell changes nothing, for a game not over whose `open` is not yet the number of safe cells |
| Rules.PressedToggleTwice | main.go:518-525 | two right presses on a closed cell restore the state, for a game not over whose `open` is not yet the number of safe cells |
| Rules.PressedMine | main.go:502-507 | a left press on an unflagged mine opens it and loses, without touching flags or `open` |
| Rules.PressedMonotone | main.go:497-531 | a click never closes a cell; `open` never decreases and stays within the number of safe cells |
| Rules.PressedConsistent | main.go:497-531 | a click on an on-grid cell keeps the board state consistent |
| Rules.PressedWin | main.go:527-530 | after a click on a game not yet over, the game is won exactly when no mine is open and every safe cell is |
| Rules.WinCheckedWin | main.go:527-530 | the win test declares a win exactly when no mine is open and every safe cell is |
| Strconv.AtoiItoa | main.go:405 | reading back with `Atoi` what `Itoa` wrote gives the number again |
| Settings.SaveInputEnds | main.go:569-576 | after a save no field is edited; if one was, the buffer is empty and the cursor hidden; if none was, nothing changes |
| Settings.SaveInputAccepts | main.go:551-567 | a save changes at most the edited setting, and only to the buffer's parsed value within its bound (rows and columns 2..40, mines 1..rows*cols-1); such a value is always taken |
| Settings.SaveInputKeeps | main.go:553-567 | saving keeps every setting within its bound |
| Settings.BeginEditSave | main.go:397-405 | starting an edit and saving it untouched stores nothing new |
| Settings.BeginEditKeeps | main.go:397-432 | starting an edit keeps the settings within bounds and shows the cursor on the new field |
| Settings.FramedKeeps | main.go:377-474 | the panel part of a frame keeps the settings within bounds and the edit flags in agreement |
| Settings.EscapeDiscards | main.go:463-471 | Escape leaves edit mode and keeps every setting |
| Settings.TypeTwo | main.go:455-459 | two backspaces and a 2 turn the buffer "16" into "2" |
| Settings.SaveTwo | main.go:554-556 | saving "2" into the rows field stores 2 rows |
| Settings.MinesBoundNotKept | main.go:562-566 | cutting the default board's rows to 2 leaves 40 mines for 32 cells |
| Settings.KeysAfterEnter | main.go:445-473 | a digit released after Enter in the same frame lands in the buffer of a panel no longer in edit mode |
| GameLoop.CellIndex | main.go:493-494 | the cell index of a pointer coordinate is the floor of its offset from the border over the cell size |
| GameLoop.CellIndexOf | main.go:493-494 | every pixel of a cell's span maps back to that cell |
| GameLoop.RestartsPerPress | main.go:475-490 | with the buttons' state stored every frame, each restart takes a press of its own |
| GameLoop.HoverRestartsAsWritten | main.go:480-489 | as written, a release over the restart button followed by n frames with the pointer resting there restarts n times |
| GameLoop.HoverRestartsOnce | main.go:480-489 | with the buttons' state stored, those frames restart once |
| GameLoop.ShrunkRestartNeverEnds | main.go:484 | after cutting the default board's rows to 2, no random stream lets the restart's `NewBoard` finish |
| GameLoop.Game.constructor | main.go:339 | the game starts from the given board, both buttons up |
| GameLoop.Game.SaveInputAndExitEdit | main.go:549-578 | the panel becomes `Settings.SaveInput` of what it was |
| GameLoop.Game.BeginEditing | main.go:397-432 | the panel becomes `Settings.BeginEdit`: the old edit saved, the new field edited with its value in the buffer and the cursor on |
| GameLoop.Game.PressPanel | main.go:395-437 | a fresh left press on the panel: a text area other than the edited one starts editing it; the panel outside the text areas saves |
| GameLoop.Game.TypeKeys | main.go:445-474 | the panel becomes the frame's released keys applied in order |
| GameLoop.Game.PanelFrame | main.go:377-474 | the panel becomes `Settings.Framed`: blink, press or save, keys |
| GameLoop.Game.CellFrame | main.go:492-531 | the board becomes the click on the cell under the pointer when it is on the grid, and is unchanged otherwise |
| GameLoop.Game.Restart | main.go:482-484 | the input is saved and the game gets a fresh board of the saved size and mine count, 25-pixel cells, mines sampled from the stream, nothing open |
| GameLoop.Game.StayFrame | main.go:491-545 | off the restart button the cell under the pointer is clicked; on it nothing changes; the buttons' state is stored |
| GameLoop.Game.ButtonFrame | main.go:475-545 | a release over the restart button restarts; any other frame keeps the board and panel and clicks the cell under the pointer when off the button; the buttons' state is stored on every frame, a restarting one included (the corrected behaviour, see Findings) |
| GameLoop.Game.Update | main.go:354-546 | one frame: the panel becomes `Framed`; a release over the restart button gives a fresh board from the saved settings; otherwise the board takes the click on the cell under the pointer; the buttons' state is stored |

## Left out

- Drawing: `Board.Draw`, `Game.Draw` and `Layout`, the images and their loading. They are presentation only.
- The random number generator: the positions it would draw are the parameter `draws`.
- The clock: a parameter `blinkDue` says whether the 500-millisecond blink period has passed. `lastBlinkTime`, `startTime` and `elapsed` are not modelled.
- The `time.AfterFunc` callback that clears `isFocused` 100 ms after a mismatched chord. It runs on another goroutine; the model sets `isFocused` and never clears it.
- `isButtonPressed`: set on a press over the restart button and cleared when the left button is up. Only drawing reads it.
- Cursor shapes, window sizes and `ebiten.RunGame`. These are calls into the engine.
- Key decoding: the released keys arrive as `Key` values. Digit keys of the main row and the keypad are both `Digit`; both Enter keys are `Enter`.
- The restart button's width and height: the model keeps them as constants of `Game` rather than reading them from the button image on every new board.
- The settings fields sit in a `SettingsPanel` object owned by the board, not directly on `Board`.
- `editField`'s strings `""`, `"rows"`, `"cols"` and `"mines"` are the `EditField` values.
- `math.Floor` on floats is replaced by integer floor division. The two agree for every pixel coordinate a window can report.
- Integers are unbounded. No count or size the game computes comes near Go's 64-bit `int`, and `Atoi`'s 64-bit range is modelled.
- Minesweeper.Board.constructor: requires a non-empty grid, a mine count that is not negative, and a random stream with at least `mines` distinct on-grid positions. The game only builds such boards or hangs in placement. With a negative count the Go code would build a board with no mines and negative `flags`; this model does not.
- GameLoop.CellIndex: requires a positive cell size. Every board the game builds has 25-pixel cells.
- GameLoop.Game.Update: stores the buttons' state on a restarting frame as well, which the code as written skips (see Findings).
- GameLoop.Game.ButtonFrame: stores the buttons' state on a restarting frame, which main.go:489 skips by returning first (see Findings).

## Findings

| source | as written | input that shows it | evidently intended | confidence | as-written member | corrected member |
|---|---|---|---|---|---|---|
| main.go:480-489 | a release over the restart button rebuilds the board and returns before `prevLeftDown` and `prevRightDown` are stored, so the next frame still sees the left button down | press and release the left button over the restart button, then leave the pointer there: every following frame is another release, and the game restarts on each one | one restart per release: the buttons' state is stored before returning | not executed; high | GameLoop.HoverRestartsAsWritten | GameLoop.RestartsPerPress |

`GameLoop.Game.Update` and `GameLoop.Game.ButtonFrame` store the buttons' state on the restart frame too. Reading their `ensures`, a run of frames should therefore restart as `GameLoop.RestartCount` counts, not as `GameLoop.RestartCountAsWritten` does. This is an argument, not a lemma: no lemma ties a run of `Update` calls to `RestartCount`.
