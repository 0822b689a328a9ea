/** The settings panel beside the board: the rows, columns and mine count the
    next game will use, and the text field being edited. The board owns these
    fields; this module states what each panel action does to them. */
module Settings {
  import opened Strconv

  const MaxBoardSize: int := 40

  /** The field being edited: `""`, `"rows"`, `"cols"` or `"mines"` in the board. */
  datatype EditField = NoField | RowsField | ColsField | MinesField

  datatype Panel = Panel(
    currentRows: int,
    currentCols: int,
    currentMines: int,
    isEditingRows: bool,
    isEditingCols: bool,
    isEditingMines: bool,
    inputBuffer: string,
    editField: EditField,
    isCursorOn: bool)

  /** Where the pointer is with respect to the settings panel: off it, or on it
      over the text area of `area` (`NoField` for the rest of the panel). */
  datatype Spot = OffPanel | OnPanel(area: EditField)

  type Decimal = d: int | 0 <= d < 10

  /** A released key the panel reacts to, once decoded from its key code: the
      digit keys of the main row and of the keypad both arrive as `Digit`, and
      `Enter` stands for the keypad Enter as well. */
  datatype Key = Digit(d: Decimal) | Backspace | Enter | Escape | OtherKey

  /** The panel `NewBoard` sets up: the game's own size and mine count, nothing edited. */
  function Fresh(rows: int, cols: int, mines: int): Panel
  {
    Panel(rows, cols, mines, false, false, false, "", NoField, false)
  }

  /** The three `isEditing*` flags name the field being edited, and the cursor is
      shown only while one is. */
  predicate Agrees(q: Panel)
  {
    q.isEditingRows == (q.editField == RowsField) &&
    q.isEditingCols == (q.editField == ColsField) &&
    q.isEditingMines == (q.editField == MinesField) &&
    (q.editField == NoField ==> !q.isCursorOn)
  }

  /** The bounds a saved value is checked against: 2..40 rows and columns, and a
      positive mine count below the largest grid's size. */
  predicate WithinLimits(q: Panel)
  {
    2 <= q.currentRows <= MaxBoardSize &&
    2 <= q.currentCols <= MaxBoardSize &&
    1 <= q.currentMines < MaxBoardSize * MaxBoardSize
  }

  /** Leave edit mode, dropping the buffer (the Escape key, and the tail of a save). */
  function Ended(q: Panel): Panel
  {
    q.(isEditingRows := false, isEditingCols := false, isEditingMines := false,
       editField := NoField, inputBuffer := "", isCursorOn := false)
  }

  /** The buffer's value goes into the edited field when it parses and passes that
      field's bound: 2..40 for rows and columns, 1..rows*cols-1 for mines. */
  function Stored(q: Panel): Panel
  {
    match Atoi(q.inputBuffer)
    case None => q
    case Some(v) =>
      match q.editField
      case RowsField => if 2 <= v <= MaxBoardSize then q.(currentRows := v) else q
      case ColsField => if 2 <= v <= MaxBoardSize then q.(currentCols := v) else q
      case MinesField => if 1 <= v <= q.currentRows * q.currentCols - 1 then q.(currentMines := v) else q
      case NoField => q
  }

  /** `saveInputAndExitEdit`: nothing when no field is edited; otherwise store the
      buffer's value if it is acceptable, then leave edit mode. */
  function SaveInput(q: Panel): Panel
  {
    if q.editField == NoField then q else Ended(Stored(q))
  }

  function FieldValue(q: Panel, f: EditField): int
  {
    match f
    case RowsField => q.currentRows
    case ColsField => q.currentCols
    case MinesField => q.currentMines
    case NoField => 0
  }

  /** A click on the text area of field `f`: when `f` is not already edited, save
      the field being edited, then edit `f` with its current value in the buffer
      and the cursor shown. */
  function BeginEdit(q: Panel, f: EditField): Panel
    requires f != NoField
  {
    if q.editField == f then q
    else
      var s := SaveInput(q);
      s.(isEditingRows := f == RowsField, isEditingCols := f == ColsField,
         isEditingMines := f == MinesField, editField := f,
         inputBuffer := Itoa(FieldValue(s, f)), isCursorOn := true)
  }

  /** A fresh left press on the panel: on the text area of `area`, `BeginEdit`;
      on the panel outside the three text areas (`area == NoField`), a save. */
  function PanelPressed(q: Panel, area: EditField): Panel
  {
    if area == NoField then SaveInput(q) else BeginEdit(q, area)
  }

  /** The effect of one released key while a field is edited. */
  function ApplyKey(q: Panel, k: Key): Panel
  {
    match k
    case Digit(d) => q.(inputBuffer := q.inputBuffer + [DigitChar(d)])
    case Backspace =>
      if |q.inputBuffer| > 0 then q.(inputBuffer := q.inputBuffer[..|q.inputBuffer| - 1]) else q
    case Enter => SaveInput(q)
    case Escape => Ended(q)
    case OtherKey => q
  }

  /** The released keys of one frame, applied in order. */
  function ApplyKeys(q: Panel, keys: seq<Key>): Panel
  {
    if |keys| == 0 then q else ApplyKey(ApplyKeys(q, keys[..|keys| - 1]), keys[|keys| - 1])
  }

  /** The cursor blink at the start of a frame; `blinkDue` says whether 500 ms
      have passed since the last blink. */
  function Blinked(q: Panel, blinkDue: bool): Panel
  {
    if q.editField != NoField then (if blinkDue then q.(isCursorOn := !q.isCursorOn) else q)
    else q.(isCursorOn := false)
  }

  /** The panel part of an `Update` frame: the blink, then on a fresh left
      press the click on the panel or, off the panel, a save, then the released
      keys if a field is still being edited. */
  function Framed(q: Panel, blinkDue: bool, leftEdge: bool, spot: Spot, keys: seq<Key>): Panel
  {
    var q1 := Blinked(q, blinkDue);
    var q2 := if leftEdge && spot.OnPanel? then PanelPressed(q1, spot.area) else q1;
    var q3 := if leftEdge && spot.OffPanel? then SaveInput(q2) else q2;
    if q3.editField != NoField then ApplyKeys(q3, keys) else q3
  }

  // ---------------------------------------------------------------------------
  // Properties

  /** After a save of a panel whose flags agree no field is edited; when one was,
      the buffer is emptied and the cursor hidden, and when none was, nothing
      changes. */
  lemma SaveInputEnds(q: Panel)
    requires Agrees(q)
    ensures var r := SaveInput(q);
      r.editField == NoField && !r.isEditingRows && !r.isEditingCols && !r.isEditingMines &&
      (q.editField != NoField ==> r.inputBuffer == "" && !r.isCursorOn) &&
      (q.editField == NoField ==> r == q)
  {
  }

  /** A save changes at most the edited field, and only to the buffer's parsed
      value when that value is within the field's bound; such a value is always
      taken. */
  lemma SaveInputAccepts(q: Panel)
    ensures var r := SaveInput(q);
      (r.currentRows != q.currentRows ==>
         q.editField == RowsField && Atoi(q.inputBuffer) == Some(r.currentRows) &&
         2 <= r.currentRows <= MaxBoardSize) &&
      (r.currentCols != q.currentCols ==>
         q.editField == ColsField && Atoi(q.inputBuffer) == Some(r.currentCols) &&
         2 <= r.currentCols <= MaxBoardSize) &&
      (r.currentMines != q.currentMines ==>
         q.editField == MinesField && Atoi(q.inputBuffer) == Some(r.currentMines) &&
         1 <= r.currentMines <= q.currentRows * q.currentCols - 1)
    ensures forall v :: Atoi(q.inputBuffer) == Some(v) ==>
      (q.editField == RowsField && 2 <= v <= MaxBoardSize ==> SaveInput(q).currentRows == v) &&
      (q.editField == ColsField && 2 <= v <= MaxBoardSize ==> SaveInput(q).currentCols == v) &&
      (q.editField == MinesField && 1 <= v <= q.currentRows * q.currentCols - 1 ==>
         SaveInput(q).currentMines == v)
  {
  }

  lemma LimitsProduct(r: int, c: int)
    requires 2 <= r <= MaxBoardSize && 2 <= c <= MaxBoardSize
    ensures r * c <= MaxBoardSize * MaxBoardSize
  {
    assert r * c <= MaxBoardSize * c;
  }

  /** Saving keeps the settings within their limits and the edit flags in agreement. */
  lemma SaveInputKeeps(q: Panel)
    requires WithinLimits(q) && Agrees(q)
    ensures WithinLimits(SaveInput(q)) && Agrees(SaveInput(q))
  {
    LimitsProduct(q.currentRows, q.currentCols);
  }

  /** Starting an edit and saving it untouched stores nothing new: `Itoa` and `Atoi`
      round-trip, and the value read back already passed its bound or is rejected. */
  lemma BeginEditSave(q: Panel, f: EditField)
    requires f != NoField && q.editField != f
    requires MinInt <= FieldValue(SaveInput(q), f) <= MaxInt
    ensures var s := SaveInput(q); var r := SaveInput(BeginEdit(q, f));
      r.currentRows == s.currentRows && r.currentCols == s.currentCols &&
      r.currentMines == s.currentMines && Agrees(r)
  {
    AtoiItoa(FieldValue(SaveInput(q), f));
  }

  lemma {:induction false} ApplyKeysKeeps(q: Panel, keys: seq<Key>)
    requires WithinLimits(q) && Agrees(q)
    ensures WithinLimits(ApplyKeys(q, keys)) && Agrees(ApplyKeys(q, keys))
  {
    if |keys| > 0 {
      var before := ApplyKeys(q, keys[..|keys| - 1]);
      ApplyKeysKeeps(q, keys[..|keys| - 1]);
      SaveInputKeeps(before);
    }
  }

  /** Every panel action keeps the settings within their limits (and so the
      size of the next board between 2 and 40) and the edit flags in agreement. */
  lemma FramedKeeps(q: Panel, blinkDue: bool, leftEdge: bool, spot: Spot, keys: seq<Key>)
    requires WithinLimits(q) && Agrees(q)
    ensures WithinLimits(Framed(q, blinkDue, leftEdge, spot, keys)) &&
      Agrees(Framed(q, blinkDue, leftEdge, spot, keys))
  {
    var q1 := Blinked(q, blinkDue);
    SaveInputKeeps(q1);
    if spot.OnPanel? && spot.area != NoField {
      BeginEditKeeps(q1, spot.area);
    }
    var q2 := if leftEdge && spot.OnPanel? then PanelPressed(q1, spot.area) else q1;
    SaveInputKeeps(q2);
    var q3 := if leftEdge && spot.OffPanel? then SaveInput(q2) else q2;
    ApplyKeysKeeps(q3, keys);
  }

  lemma BeginEditKeeps(q: Panel, f: EditField)
    requires f != NoField && WithinLimits(q) && Agrees(q)
    ensures WithinLimits(BeginEdit(q, f)) && Agrees(BeginEdit(q, f))
    ensures q.editField != f ==> BeginEdit(q, f).editField == f && BeginEdit(q, f).isCursorOn
  {
    SaveInputKeeps(q);
  }

  /** Escape leaves edit mode and keeps every setting. */
  lemma EscapeDiscards(q: Panel)
    ensures var r := ApplyKey(q, Escape);
      r.editField == NoField && r.inputBuffer == "" &&
      r.currentRows == q.currentRows && r.currentCols == q.currentCols && r.currentMines == q.currentMines
  {
  }

  lemma ItoaSixteen()
    ensures Itoa(16) == "16"
  {
    assert Digits(16) == Digits(1) + [DigitChar(6)];
  }

  lemma TypeTwo(q: Panel)
    requires q.inputBuffer == "16"
    ensures ApplyKeys(q, [Backspace, Backspace, Digit(2)]) == q.(inputBuffer := "2")
  {
    var keys := [Backspace, Backspace, Digit(2)];
    assert keys[..2] == [Backspace, Backspace] && keys[..2][..1] == [Backspace] && [Backspace][..0] == [];
    assert q.inputBuffer[..1] == "1" && "1"[..0] == "";
    assert ApplyKeys(q, [Backspace]) == q.(inputBuffer := "1");
    assert ApplyKeys(q, [Backspace, Backspace]) == q.(inputBuffer := "");
  }

  lemma SaveTwo(q: Panel)
    requires q.inputBuffer == "2" && q.editField == RowsField
    ensures SaveInput(q) == Ended(q.(currentRows := 2))
  {
    assert DigitsValue("2") == 2;
  }

  /** The mine bound is checked only when the mine count is saved: editing the
      rows of the default 16 x 16 board with 40 mines down to 2 leaves 40 mines
      for a 2 x 16 grid of 32 cells, more mines than cells. */
  lemma MinesBoundNotKept()
    ensures var q := BeginEdit(Fresh(16, 16, 40), RowsField);
      var r := SaveInput(ApplyKeys(q, [Backspace, Backspace, Digit(2)]));
      r.currentRows == 2 && r.currentCols == 16 && r.currentMines == 40 &&
      r.currentMines > r.currentRows * r.currentCols
  {
    var q := BeginEdit(Fresh(16, 16, 40), RowsField);
    ItoaSixteen();
    TypeTwo(q);
    SaveTwo(q.(inputBuffer := "2"));
  }

  /** The released keys of a frame are all applied once the frame found a field
      edited, so a digit released in the same frame after Enter lands in the
      buffer of a panel no longer in edit mode. */
  lemma KeysAfterEnter(q: Panel)
    requires q.editField != NoField
    ensures var r := ApplyKeys(q, [Enter, Digit(5)]);
      r.editField == NoField && r.inputBuffer == "5"
  {
    assert [Enter, Digit(5)][..1] == [Enter];
    assert ApplyKeys(q, [Enter]) == SaveInput(q);
  }
}
