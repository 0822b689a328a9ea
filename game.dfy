/** The game loop's object: the board and the mouse buttons' state at the last
    frame, from which a frame tells fresh presses and releases from held buttons. */
module GameLoop {
  import opened Geometry
  import opened Rules
  import opened Placement
  import opened Strconv
  import opened Settings
  import opened Minesweeper

  /** The margin, in pixels, between the window's edge and the grid. */
  const BorderWidth: int := 10
  /** The restart button's top edge. */
  const ButtonY: int := 20
  /** The cell size of every board the restart button builds. */
  const RestartCellSize: int := 25

  /** The cell a pointer coordinate falls in: `floor((m - BorderWidth) / cellSize)`.
      Dafny's `/` is floor division for a positive divisor, as `math.Floor` of the
      quotient is. */
  function CellIndex(m: int, cellSize: int): (c: int)
    requires 0 < cellSize
    ensures cellSize * c <= m - BorderWidth < cellSize * (c + 1)
  {
    (m - BorderWidth) / cellSize
  }

  /** A multiple of a positive `n` is at least `n` or at most `-n` unless it is 0. */
  lemma MulSign(n: int, k: int)
    requires 0 < n
    ensures k >= 1 ==> n * k >= n
    ensures k <= -1 ==> n * k <= -n
  {
    assert n * k == n * (k - 1) + n;
    assert n * k == n * (k + 1) - n;
  }

  /** Every pixel of the `c`-th cell's span maps back to `c`. */
  lemma CellIndexOf(c: int, offset: int, cellSize: int)
    requires 0 <= offset < cellSize
    ensures CellIndex(BorderWidth + cellSize * c + offset, cellSize) == c
  {
    var d := CellIndex(BorderWidth + cellSize * c + offset, cellSize);
    assert cellSize * (d - c) == cellSize * d - cellSize * c;
    MulSign(cellSize, d - c);
  }

  /** A frame's cell action on the cell (cx, cy): a click when the cell is on
      the grid, nothing otherwise. */
  ghost function Clicked(L: Layout, s: BoardState, cx: int, cy: int, left: bool, right: bool): BoardState
  {
    if 0 <= cx < L.cols && 0 <= cy < L.rows then Pressed(L, s, Pos(cx, cy), left, right) else s
  }

  /** Where (mx, my) is with respect to the settings panel whose top-left corner
      is (sx, sy): the panel is 100 pixels wide and 120 high, and its rows, columns
      and mines text areas are the bands 20..35, 40..55 and 60..75 below its top. */
  function SpotAt(mx: int, my: int, sx: int, sy: int): Spot
  {
    if !(sx <= mx <= sx + 100 && sy <= my <= sy + 120) then OffPanel
    else if sy + 20 <= my <= sy + 35 then OnPanel(RowsField)
    else if sy + 40 <= my <= sy + 55 then OnPanel(ColsField)
    else if sy + 60 <= my <= sy + 75 then OnPanel(MinesField)
    else OnPanel(NoField)
  }

  // ---------------------------------------------------------------------------
  // The restart button over a run of frames

  /** A frame as the restart button sees it: whether the left button is down and
      whether the pointer is over the button. */
  datatype Frame = Frame(leftDown: bool, onButton: bool)

  /** A frame restarts the game when the left button, down at the last frame, is
      released over the restart button. */
  predicate Restarts(prevLeft: bool, leftDown: bool, onButton: bool)
  {
    onButton && !leftDown && prevLeft
  }

  /** The restarts of a run of frames, every frame storing the left button's state
      for the next one. */
  function RestartCount(prevLeft: bool, frames: seq<Frame>): nat
    decreases |frames|
  {
    if |frames| == 0 then 0
    else
      (if Restarts(prevLeft, frames[0].leftDown, frames[0].onButton) then 1 else 0) +
      RestartCount(frames[0].leftDown, frames[1..])
  }

  /** The same count with the frame loop as written: a frame that restarts returns
      before storing the buttons' state, so the next frame still sees the left
      button down. */
  function RestartCountAsWritten(prevLeft: bool, frames: seq<Frame>): nat
    decreases |frames|
  {
    if |frames| == 0 then 0
    else if Restarts(prevLeft, frames[0].leftDown, frames[0].onButton) then
      1 + RestartCountAsWritten(prevLeft, frames[1..])
    else RestartCountAsWritten(frames[0].leftDown, frames[1..])
  }

  /** The presses of the left button in a run of frames. */
  function PressCount(prevLeft: bool, frames: seq<Frame>): nat
    decreases |frames|
  {
    if |frames| == 0 then 0
    else (if frames[0].leftDown && !prevLeft then 1 else 0) + PressCount(frames[0].leftDown, frames[1..])
  }

  /** The left button's state after a run of frames. */
  function LastLeft(prevLeft: bool, frames: seq<Frame>): bool
  {
    if |frames| == 0 then prevLeft else frames[|frames| - 1].leftDown
  }

  /** Every restart takes a press of its own: the restarts, plus one if the
      button is down at the end, are at most the presses, plus one if it was down
      at the start. */
  lemma {:induction false} RestartsPerPress(prevLeft: bool, frames: seq<Frame>)
    ensures RestartCount(prevLeft, frames) + (if LastLeft(prevLeft, frames) then 1 else 0) <=
      PressCount(prevLeft, frames) + (if prevLeft then 1 else 0)
    decreases |frames|
  {
    if |frames| > 0 {
      var rest := frames[1..];
      RestartsPerPress(frames[0].leftDown, rest);
      if |rest| > 0 {
        assert rest[|rest| - 1] == frames[|frames| - 1];
      }
    }
  }

  /** `n` frames with the left button up and the pointer over the restart button. */
  function Hover(n: nat): (frames: seq<Frame>)
    ensures |frames| == n && forall i :: 0 <= i < n ==> frames[i] == Frame(false, true)
  {
    if n == 0 then [] else [Frame(false, true)] + Hover(n - 1)
  }

  /** As written, releasing the left button over the restart button and leaving
      the pointer there restarts the game on every one of those frames. */
  lemma {:induction false} HoverRestartsAsWritten(n: nat)
    ensures RestartCountAsWritten(true, Hover(n)) == n
  {
    if n > 0 {
      assert Hover(n)[1..] == Hover(n - 1);
      HoverRestartsAsWritten(n - 1);
    }
  }

  /** With the buttons' state stored on every frame, the same frames restart once. */
  lemma HoverRestartsOnce(n: nat)
    requires 0 < n
    ensures RestartCount(true, Hover(n)) == 1
  {
    assert Hover(n)[1..] == Hover(n - 1);
    RestartsPerPress(false, Hover(n - 1));
    HoverNoPress(n - 1);
  }

  lemma {:induction false} HoverNoPress(n: nat)
    ensures PressCount(false, Hover(n)) == 0
  {
    if n > 0 {
      assert Hover(n)[1..] == Hover(n - 1);
      HoverNoPress(n - 1);
    }
  }

  /** Saving rows 2 over the default board and then pressing restart leaves
      `NewBoard` more mines than cells: no random stream lets it finish, so a
      release over the restart button after that edit hangs the game. */
  lemma ShrunkRestartNeverEnds(draws: seq<Pos>)
    ensures var q := SaveInput(ApplyKeys(BeginEdit(Fresh(16, 16, 40), RowsField), [Backspace, Backspace, Digit(2)]));
      !DrawsFit(q.currentRows, q.currentCols, q.currentMines, draws)
  {
    MinesBoundNotKept();
    var q := SaveInput(ApplyKeys(BeginEdit(Fresh(16, 16, 40), RowsField), [Backspace, Backspace, Digit(2)]));
    DrawsFitBound(q.currentRows, q.currentCols, q.currentMines, draws);
  }

  // ---------------------------------------------------------------------------
  // The game

  class Game {
    var board: Board
    var prevLeftDown: bool
    var prevRightDown: bool
    /** The restart button image's size, the same for every board. */
    const buttonWidth: int
    const buttonHeight: int

    ghost predicate Valid()
      reads this`board, board, board.cells
    {
      board.Valid() && 0 < board.cellSize
    }

    constructor (board: Board, buttonWidth: int, buttonHeight: int)
      requires board.Valid() && 0 < board.cellSize
      ensures Valid() && this.board == board && !prevLeftDown && !prevRightDown
      ensures this.buttonWidth == buttonWidth && this.buttonHeight == buttonHeight
    {
      this.board := board;
      this.buttonWidth, this.buttonHeight := buttonWidth, buttonHeight;
      prevLeftDown, prevRightDown := false, false;
    }

    /** The x coordinate where the side panel (restart button and settings) begins. */
    function SidePanelX(): int
      reads this`board
    {
      board.cols * board.cellSize + BorderWidth + 10
    }

    /** The settings panel's top edge, 50 pixels below the restart button. */
    function SettingsY(): int
    {
      ButtonY + buttonHeight + 50
    }

    /** The pointer is over the restart button. */
    predicate OnButton(mx: int, my: int)
      reads this`board
    {
      var bx := SidePanelX();
      mx >= bx && mx <= bx + buttonWidth && my >= ButtonY && my <= ButtonY + buttonHeight
    }

    function Spot(mx: int, my: int): Spot
      reads this`board
    {
      SpotAt(mx, my, SidePanelX(), SettingsY())
    }

    /** `saveInputAndExitEdit`. */
    method SaveInputAndExitEdit()
      modifies board.settings
      ensures board.settings.Value() == SaveInput(old(board.settings.Value()))
    {
      var s := board.settings;
      if s.editField != NoField {
        ghost var q := s.Value();
        var val := Atoi(s.inputBuffer);
        if val.Some? {
          var v := val.value;
          match s.editField
          case RowsField =>
            if v >= 2 && v <= MaxBoardSize {
              s.currentRows := v;
            }
          case ColsField =>
            if v >= 2 && v <= MaxBoardSize {
              s.currentCols := v;
            }
          case MinesField =>
            var maxMines := s.currentRows * s.currentCols - 1;
            if v >= 1 && v <= maxMines {
              s.currentMines := v;
            }
        }
        assert s.Value() == Stored(q);
        s.isEditingRows, s.isEditingCols, s.isEditingMines := false, false, false;
        s.editField, s.inputBuffer, s.isCursorOn := NoField, "", false;
      }
    }

    /** A fresh left press on the text area of field `f`, not the one edited:
        save the current edit, then edit `f` starting from its current value. */
    method BeginEditing(f: EditField)
      requires f != NoField && board.settings.editField != f
      modifies board.settings
      ensures board.settings.Value() == BeginEdit(old(board.settings.Value()), f)
    {
      var s := board.settings;
      SaveInputAndExitEdit();
      s.isEditingRows, s.isEditingCols, s.isEditingMines := f == RowsField, f == ColsField, f == MinesField;
      s.editField := f;
      var value := match f
        case RowsField => s.currentRows
        case ColsField => s.currentCols
        case MinesField => s.currentMines;
      s.inputBuffer := Itoa(value);
      s.isCursorOn := true;
    }

    /** A fresh left press with the pointer on the settings panel: on a text area
        other than the edited one, start editing it; on the panel outside the
        three text areas, save and leave edit mode; on the edited field's own
        text area, nothing. */
    method PressPanel(mx: int, my: int)
      requires Spot(mx, my).OnPanel?
      modifies board.settings
      ensures board.settings.Value() == PanelPressed(old(board.settings.Value()), Spot(mx, my).area)
    {
      var s := board.settings;
      var sx, sy := SidePanelX(), SettingsY();
      var rowsTextArea := mx >= sx && mx <= sx + 100 && my >= sy + 20 && my <= sy + 35;
      var colsTextArea := mx >= sx && mx <= sx + 100 && my >= sy + 40 && my <= sy + 55;
      var minesTextArea := mx >= sx && mx <= sx + 100 && my >= sy + 60 && my <= sy + 75;
      if rowsTextArea && s.editField != RowsField {
        BeginEditing(RowsField);
      } else if colsTextArea && s.editField != ColsField {
        BeginEditing(ColsField);
      } else if minesTextArea && s.editField != MinesField {
        BeginEditing(MinesField);
      } else if !rowsTextArea && !colsTextArea && !minesTextArea {
        SaveInputAndExitEdit();
      }
    }

    /** The released keys of a frame, applied in order while a field is edited. */
    method TypeKeys(keys: seq<Key>)
      modifies board.settings
      ensures board.settings.Value() == ApplyKeys(old(board.settings.Value()), keys)
    {
      var s := board.settings;
      var i := 0;
      while i < |keys|
        invariant 0 <= i <= |keys|
        invariant s.Value() == ApplyKeys(old(s.Value()), keys[..i])
      {
        assert keys[..i + 1][..i] == keys[..i];
        match keys[i] {
          case Digit(d) =>
            s.inputBuffer := s.inputBuffer + [DigitChar(d)];
          case Backspace =>
            if |s.inputBuffer| > 0 {
              s.inputBuffer := s.inputBuffer[..|s.inputBuffer| - 1];
            }
          case Enter =>
            SaveInputAndExitEdit();
          case Escape =>
            s.isEditingRows, s.isEditingCols, s.isEditingMines := false, false, false;
            s.editField, s.inputBuffer, s.isCursorOn := NoField, "", false;
          case OtherKey =>
        }
        i := i + 1;
      }
      assert keys[..i] == keys;
    }

    /** The settings part of a frame: the cursor blinks while a field is edited
        and is hidden otherwise; a fresh left press acts on the panel, or off the
        panel saves the edit; then the released keys are applied if a field is
        still edited. */
    method PanelFrame(mx: int, my: int, blinkDue: bool, leftEdge: bool, keys: seq<Key>)
      modifies board.settings
      ensures board.settings.Value() == Framed(old(board.settings.Value()), blinkDue, leftEdge, Spot(mx, my), keys)
    {
      var s := board.settings;
      var sx, sy := SidePanelX(), SettingsY();
      var isSettingsArea := mx >= sx && mx <= sx + 100 && my >= sy && my <= sy + 120;
      if s.editField != NoField {
        if blinkDue {
          s.isCursorOn := !s.isCursorOn;
        }
      } else {
        s.isCursorOn := false;
      }
      if isSettingsArea && leftEdge {
        PressPanel(mx, my);
      }
      if leftEdge && !isSettingsArea && s.editField != NoField {
        SaveInputAndExitEdit();
      }
      if s.editField != NoField {
        TypeKeys(keys);
      }
    }

    /** The cell action of a frame: the pointer coordinates become a cell, and a
        cell on the grid gets this frame's fresh presses. */
    method CellFrame(mx: int, my: int, left: bool, right: bool)
      requires Valid()
      modifies board`open, board`flags, board`isGameOver, board`isWin,
        board`OpenCells, board`FlagCells, board`FocusCells, board.cells
      ensures Valid()
      ensures board.State() == Clicked(board.MineLayout(), old(board.State()), CellIndex(mx, board.cellSize),
        CellIndex(my, board.cellSize), left, right)
    {
      var cx := CellIndex(mx, board.cellSize);
      var cy := CellIndex(my, board.cellSize);
      if cx >= 0 && cx < board.cols && cy >= 0 && cy < board.rows {
        board.ClickCell(cx, cy, left, right);
      }
    }

    /** A release over the restart button: save the input, then a new board of
        the saved size and mine count, built from the random stream `draws`. */
    method Restart(draws: seq<Pos>)
      requires var q := SaveInput(board.settings.Value());
        DrawsFit(q.currentRows, q.currentCols, q.currentMines, draws)
      modifies this`board, board.settings
      ensures Valid() && fresh(board)
      ensures var q := SaveInput(old(board.settings.Value()));
        board.rows == q.currentRows && board.cols == q.currentCols && board.mines == q.currentMines &&
        board.cellSize == RestartCellSize && board.Mined == Placed(draws, q.currentMines) &&
        board.State() == Initial(board.MineLayout()) &&
        board.settings.Value() == Fresh(q.currentRows, q.currentCols, q.currentMines)
    {
      SaveInputAndExitEdit();
      var s := board.settings;
      board := new Board(s.currentRows, s.currentCols, RestartCellSize, s.currentMines, draws);
    }

    /** The rest of a frame once the panel has had its turn: over the restart
        button a release restarts the game; elsewhere the cell under the pointer
        gets this frame's fresh presses; then the buttons' state is stored for
        the next frame. */
    method ButtonFrame(mx: int, my: int, leftDown: bool, rightDown: bool, draws: seq<Pos>)
      requires Valid()
      requires Restarts(prevLeftDown, leftDown, OnButton(mx, my)) ==>
        var q := SaveInput(board.settings.Value());
        DrawsFit(q.currentRows, q.currentCols, q.currentMines, draws)
      modifies this`board, this`prevLeftDown, this`prevRightDown,
        board`open, board`flags, board`isGameOver, board`isWin,
        board`OpenCells, board`FlagCells, board`FocusCells, board.settings, board.cells
      ensures Valid()
      ensures prevLeftDown == leftDown && prevRightDown == rightDown
      ensures !Restarts(old(prevLeftDown), leftDown, old(OnButton(mx, my))) ==>
        board == old(board) && unchanged(board.settings) &&
        board.State() == if OnButton(mx, my) then old(board.State())
          else Clicked(board.MineLayout(), old(board.State()), CellIndex(mx, board.cellSize),
            CellIndex(my, board.cellSize), leftDown && !old(prevLeftDown), rightDown && !old(prevRightDown))
      ensures var q := SaveInput(old(board.settings.Value()));
        Restarts(old(prevLeftDown), leftDown, old(OnButton(mx, my))) ==>
          fresh(board) && board.rows == q.currentRows && board.cols == q.currentCols &&
          board.mines == q.currentMines && board.cellSize == RestartCellSize &&
          board.Mined == Placed(draws, q.currentMines) && board.State() == Initial(board.MineLayout()) &&
          board.settings.Value() == Fresh(q.currentRows, q.currentCols, q.currentMines)
    {
      if OnButton(mx, my) && !leftDown && prevLeftDown {
        Restart(draws);
        prevLeftDown, prevRightDown := leftDown, rightDown;
      } else {
        StayFrame(mx, my, leftDown, rightDown);
      }
    }

    /** A frame that does not restart: off the restart button the cell under the
        pointer gets this frame's fresh presses; then the buttons' state is
        stored for the next frame. */
    method StayFrame(mx: int, my: int, leftDown: bool, rightDown: bool)
      requires Valid()
      modifies this`prevLeftDown, this`prevRightDown,
        board`open, board`flags, board`isGameOver, board`isWin,
        board`OpenCells, board`FlagCells, board`FocusCells, board.cells
      ensures Valid()
      ensures prevLeftDown == leftDown && prevRightDown == rightDown
      ensures board.State() == if OnButton(mx, my) then old(board.State())
        else Clicked(board.MineLayout(), old(board.State()), CellIndex(mx, board.cellSize),
          CellIndex(my, board.cellSize), leftDown && !old(prevLeftDown), rightDown && !old(prevRightDown))
    {
      if !OnButton(mx, my) {
        CellFrame(mx, my, leftDown && !prevLeftDown, rightDown && !prevRightDown);
      }
      prevLeftDown, prevRightDown := leftDown, rightDown;
    }

    /** `Update`, one frame: the pointer is at (mx, my), the buttons are down as
        `leftDown` and `rightDown` say, `blinkDue` says whether the cursor's
        500-millisecond period has passed, `keys` are the keys released this
        frame and `draws` the random stream a restart builds its board from. The
        buttons' state is stored for the next frame on a restart too, which the
        frame loop as written skips. */
    method Update(mx: int, my: int, leftDown: bool, rightDown: bool, blinkDue: bool, keys: seq<Key>, draws: seq<Pos>)
      requires Valid()
      requires Restarts(prevLeftDown, leftDown, OnButton(mx, my)) ==>
        var q := SaveInput(Framed(board.settings.Value(), blinkDue, leftDown && !prevLeftDown, Spot(mx, my), keys));
        DrawsFit(q.currentRows, q.currentCols, q.currentMines, draws)
      modifies this`board, this`prevLeftDown, this`prevRightDown,
        board`open, board`flags, board`isGameOver, board`isWin,
        board`OpenCells, board`FlagCells, board`FocusCells, board.settings, board.cells
      ensures Valid()
      ensures prevLeftDown == leftDown && prevRightDown == rightDown
      ensures var q := Framed(old(board.settings.Value()), blinkDue, leftDown && !old(prevLeftDown), old(Spot(mx, my)), keys);
        !Restarts(old(prevLeftDown), leftDown, old(OnButton(mx, my))) ==>
          board == old(board) && board.settings.Value() == q &&
          board.State() == if OnButton(mx, my) then old(board.State())
            else Clicked(board.MineLayout(), old(board.State()), CellIndex(mx, board.cellSize),
              CellIndex(my, board.cellSize), leftDown && !old(prevLeftDown), rightDown && !old(prevRightDown))
      ensures var q := SaveInput(Framed(old(board.settings.Value()), blinkDue, leftDown && !old(prevLeftDown), old(Spot(mx, my)), keys));
        Restarts(old(prevLeftDown), leftDown, old(OnButton(mx, my))) ==>
          fresh(board) && board.rows == q.currentRows && board.cols == q.currentCols &&
          board.mines == q.currentMines && board.cellSize == RestartCellSize &&
          board.Mined == Placed(draws, q.currentMines) && board.State() == Initial(board.MineLayout()) &&
          board.settings.Value() == Fresh(q.currentRows, q.currentCols, q.currentMines)
    {
      PanelFrame(mx, my, blinkDue, leftDown && !prevLeftDown, keys);
      ButtonFrame(mx, my, leftDown, rightDown, draws);
    }
  }
}
