/** The virtual terminal: a character grid with a cursor, a growing line
    buffer, dirty-cell tracking for the renderer and an input queue. Every
    operation is a pure transition from one terminal state to the next. */
module VirtualTerminal {
  import opened Optionals
  import opened Geometry
  import opened PositionSet
  import opened TextBuffer
  import opened InputQueue

  /** The colours and modifiers active when a character is typed; the
      terminal reads them at write time. */
  datatype StyleContext = StyleContext(style: Style, blinking: bool)

  /** The character a typed glyph becomes under the active style. */
  function Build(c: char, ctx: StyleContext): TextChar {
    TextChar(c, ctx.style, ctx.blinking)
  }

  /** The state of one terminal. `cursor.column` may equal `size.columns`
      (pending wrap). `dirty` is the explicit dirty set in row-major order;
      `wholeBufferDirty` asks the next drain to repaint everything;
      `lastDrawn` is where the previous drain drew the caret, `Empty` before
      the first drain. */
  datatype Terminal = Terminal(
    size: Size,
    cursor: Position,
    buffer: Buffer,
    dirty: seq<Position>,
    wholeBufferDirty: bool,
    lastDrawn: Optional<Position>,
    inputs: seq<Input>)

  /** The representation invariant: the dirty set is a sorted set. */
  predicate Valid(t: Terminal) {
    Ascending(t.dirty)
  }

  /** The cursor addresses a cell of the grid or sits just past the end of
      a row. */
  predicate CursorInRange(t: Terminal) {
    0 <= t.cursor.column <= t.size.columns && 0 <= t.cursor.row <= t.size.rows - 1
  }

  predicate IsDirty(t: Terminal) {
    t.wholeBufferDirty || |t.dirty| > 0
  }

  /** A new terminal: cursor at the origin, which is already dirty. */
  function New(size: Size): (t: Terminal)
    ensures Valid(t) && IsDirty(t)
    ensures t.size == size && t.cursor == Origin && t.dirty == [Origin]
    ensures t.buffer == EmptyBuffer && !t.wholeBufferDirty
    ensures t.lastDrawn.Empty? && t.inputs == []
    ensures size.rows >= 1 ==> CursorInRange(t)
  {
    Terminal(size, Origin, EmptyBuffer, [Origin], false, Empty, [])
  }

  /** Moves the cursor to the clamped position and marks that position dirty;
      nothing else changes. */
  function SetCursorPosition(t: Terminal, p: Position): (r: Terminal)
    ensures r.cursor == ClampCursor(p, t.size)
    ensures forall q :: q in r.dirty <==> q in t.dirty || q == r.cursor
    ensures Valid(t) ==> Valid(r)
    ensures r == t.(cursor := r.cursor, dirty := r.dirty)
  {
    var c := ClampCursor(p, t.size);
    t.(cursor := c, dirty := Insert(t.dirty, c))
  }

  /** Column 0 of the next row (clamped to the last row); the buffer gains a
      line exactly when the cursor lands on a row it does not have yet. */
  function MoveCursorToNextLine(t: Terminal): (r: Terminal)
    ensures r.cursor.column == 0
    ensures r.cursor.row == Min(t.cursor.row + 1, t.size.rows - 1)
    ensures r.buffer.lineCount == t.buffer.lineCount + 1 <==> r.cursor.row >= t.buffer.lineCount
    ensures r.buffer.lineCount == t.buffer.lineCount || r.buffer.lineCount == t.buffer.lineCount + 1
    ensures forall q :: Get(r.buffer, q) == Get(t.buffer, q)
    ensures forall q :: q in r.dirty <==> q in t.dirty || q == r.cursor
    ensures Valid(t) ==> Valid(r)
    ensures CursorInRange(t) ==> CursorInRange(r)
    ensures r.size == t.size && r.wholeBufferDirty == t.wholeBufferDirty
    ensures r.lastDrawn == t.lastDrawn && r.inputs == t.inputs
  {
    var t1 := SetCursorPosition(t, Position(0, t.cursor.row + 1));
    if t1.cursor.row >= t1.buffer.lineCount then t1.(buffer := NewLine(t1.buffer)) else t1
  }

  predicate CursorIsAtTheEndOfTheLine(t: Terminal) {
    t.cursor.column == t.size.columns
  }

  /** The wrap check: a cursor on the sentinel column goes to the next line,
      any other cursor stays. */
  function CheckCursorPosition(t: Terminal): (r: Terminal)
    ensures !CursorIsAtTheEndOfTheLine(t) ==> r == t
    ensures CursorIsAtTheEndOfTheLine(t) ==> r.cursor == Position(0, Min(t.cursor.row + 1, t.size.rows - 1))
    ensures t.size.columns > 0 && t.cursor.column <= t.size.columns ==> r.cursor.column < t.size.columns
    ensures CursorIsAtTheEndOfTheLine(t) ==> (r.buffer.lineCount == t.buffer.lineCount + 1 <==> r.cursor.row >= t.buffer.lineCount)
    ensures r.buffer.lineCount == t.buffer.lineCount || r.buffer.lineCount == t.buffer.lineCount + 1
    ensures forall q :: Get(r.buffer, q) == Get(t.buffer, q)
    ensures forall q :: q in r.dirty <==> q in t.dirty || (CursorIsAtTheEndOfTheLine(t) && q == r.cursor)
    ensures Valid(t) ==> Valid(r)
    ensures CursorInRange(t) ==> CursorInRange(r)
    ensures r.size == t.size && r.wholeBufferDirty == t.wholeBufferDirty
    ensures r.lastDrawn == t.lastDrawn && r.inputs == t.inputs
  {
    if CursorIsAtTheEndOfTheLine(t) then MoveCursorToNextLine(t) else t
  }

  /** Where the next printable character lands: the cursor, or the start of
      the next line when the cursor is on the sentinel column. */
  function WritePosition(t: Terminal): Position {
    if CursorIsAtTheEndOfTheLine(t) then Position(0, Min(t.cursor.row + 1, t.size.rows - 1))
    else t.cursor
  }

  /** Where the cursor goes after writing at `w`: one column on, or the start
      of the next line when that column would be the sentinel. */
  function AdvancedCursor(w: Position, size: Size): Position {
    if w.column + 1 < size.columns then Position(w.column + 1, w.row)
    else Position(0, Min(w.row + 1, size.rows - 1))
  }

  /** Writes a styled character with wrap checks before and after. Only the
      slot written changes; it, the intermediate and the final cursor are the
      only new dirty positions; afterwards the cursor is never on the
      sentinel column of a grid with columns. */
  function PutTextChar(t: Terminal, ch: TextChar): (r: Terminal)
    ensures Get(r.buffer, WritePosition(t)) == ch
    ensures forall q :: q != WritePosition(t) ==> Get(r.buffer, q) == Get(t.buffer, q)
    ensures t.buffer.lineCount <= r.buffer.lineCount <= t.buffer.lineCount + 2
    ensures forall q :: q in r.dirty <==>
      q in t.dirty || q == WritePosition(t) || q == r.cursor
      || q == ClampCursor(Position(WritePosition(t).column + 1, WritePosition(t).row), t.size)
    ensures t.size.columns > 0 ==> r.cursor.column < t.size.columns
    ensures t.size.columns > 0 && CursorInRange(t) ==> r.cursor == AdvancedCursor(WritePosition(t), t.size)
    ensures Valid(t) ==> Valid(r)
    ensures CursorInRange(t) ==> CursorInRange(r)
    ensures r.size == t.size && r.wholeBufferDirty == t.wholeBufferDirty
    ensures r.lastDrawn == t.lastDrawn && r.inputs == t.inputs
  {
    var t1 := CheckCursorPosition(t);
    var w := t1.cursor;
    var t2 := t1.(buffer := Set(t1.buffer, w, ch), dirty := Insert(t1.dirty, w));
    var t3 := SetCursorPosition(t2, Position(w.column + 1, w.row));
    var t4 := CheckCursorPosition(t3);
    t4.(dirty := Insert(t4.dirty, t4.cursor))
  }

  /** Typing one character: a line break moves to the next line, a printable
      character is written in the active style, anything else is ignored. */
  function PutCharacter(t: Terminal, c: char, ctx: StyleContext, printable: char -> bool): (r: Terminal)
    ensures c == '\n' ==> r.cursor.column == 0 && r.cursor.row == Min(t.cursor.row + 1, t.size.rows - 1)
    ensures c == '\n' ==> (r.buffer.lineCount == t.buffer.lineCount + 1 <==> r.cursor.row >= t.buffer.lineCount)
    ensures c == '\n' ==> (r.buffer.lineCount != t.buffer.lineCount + 1 <==> r.buffer.lineCount == t.buffer.lineCount)
    ensures c == '\n' ==> forall q :: Get(r.buffer, q) == Get(t.buffer, q)
    ensures c == '\n' ==> forall q :: q in r.dirty <==> q in t.dirty || q == r.cursor
    ensures c != '\n' && printable(c) ==> Get(r.buffer, WritePosition(t)) == Build(c, ctx)
    ensures c != '\n' && printable(c) && t.size.columns > 0 ==> r.cursor.column < t.size.columns
    ensures c != '\n' && !printable(c) ==> r == t
    ensures Valid(t) ==> Valid(r)
    ensures CursorInRange(t) ==> CursorInRange(r)
    ensures r.size == t.size && r.inputs == t.inputs
    ensures r.wholeBufferDirty == t.wholeBufferDirty && r.lastDrawn == t.lastDrawn
  {
    if c == '\n' then MoveCursorToNextLine(t)
    else if printable(c) then PutTextChar(t, Build(c, ctx))
    else t
  }

  /** Resizing: a no-op for the current size; otherwise the new size is
      recorded, the buffer reflowed, an out-of-range cursor clamped back
      into range, and the whole buffer marked dirty. */
  function SetSize(t: Terminal, newSize: Size): (r: Terminal)
    ensures newSize == t.size ==> r == t
    ensures newSize != t.size ==> r.size == newSize && r.wholeBufferDirty
    ensures newSize != t.size ==> r.cursor.column <= newSize.columns && r.cursor.row <= newSize.rows - 1
    ensures newSize != t.size ==> r.cursor == ClampCursor(t.cursor, newSize)
    ensures newSize != t.size && (t.cursor.row >= newSize.rows || t.cursor.column >= newSize.columns) ==> r.cursor in r.dirty
    ensures newSize != t.size && InBounds(t.cursor, newSize) ==> r.cursor == t.cursor && r.dirty == t.dirty
    ensures newSize.rows >= 1 && CursorInRange(t) ==> CursorInRange(r)
    ensures forall q :: q in t.dirty ==> q in r.dirty
    ensures forall q :: q in r.dirty ==> q in t.dirty || q == r.cursor
    ensures r.buffer.lineCount == t.buffer.lineCount
    ensures forall q: Position :: q.column < newSize.columns ==> Get(r.buffer, q) == Get(t.buffer, q)
    ensures Valid(t) ==> Valid(r)
    ensures r.lastDrawn == t.lastDrawn && r.inputs == t.inputs
  {
    if newSize == t.size then t
    else
      var t1 := t.(size := newSize, buffer := Resize(t.buffer, newSize.columns));
      var c := t1.cursor;
      var t2 :=
        if c.row >= newSize.rows || c.column >= newSize.columns then
          SetCursorPosition(t1, Position(Min(newSize.columns, c.column), Min(newSize.rows, c.row)))
        else t1;
      t2.(wholeBufferDirty := true)
  }

  /** Raises the whole-buffer flag, which supersedes the explicit set. */
  function SetWholeBufferDirty(t: Terminal): (r: Terminal)
    ensures r.wholeBufferDirty && r.dirty == [] && IsDirty(r) && Valid(r)
    ensures r == t.(wholeBufferDirty := r.wholeBufferDirty, dirty := r.dirty)
  {
    t.(wholeBufferDirty := true, dirty := [])
  }

  /** Clearing: one blank line, whole buffer dirty, cursor at the origin,
      and the origin as the only explicitly dirty position. */
  function Clear(t: Terminal): (r: Terminal)
    ensures r.buffer == EmptyBuffer && r.wholeBufferDirty
    ensures r.cursor == ClampCursor(Origin, t.size)
    ensures t.size.rows >= 1 ==> r.cursor == Origin && CursorInRange(r)
    ensures r.dirty == [r.cursor]
    ensures Valid(r) && IsDirty(r)
    ensures r.size == t.size && r.lastDrawn == t.lastDrawn && r.inputs == t.inputs
  {
    SetCursorPosition(SetWholeBufferDirty(t.(buffer := EmptyBuffer)), Origin)
  }

  /** Reading a cell: absent outside the grid. */
  function GetCharacterAt(t: Terminal, p: Position): (r: Optional<TextChar>)
    ensures r.Of? <==> InBounds(p, t.size)
    ensures r.Of? ==> r.value == Get(t.buffer, p)
  {
    if InBounds(p, t.size) then Of(Get(t.buffer, p)) else Empty
  }

  /** Writing a cell directly: refused (false, nothing changes) outside the
      grid; inside, only that cell changes and the dirty set is not touched. */
  function SetCharacterAt(t: Terminal, p: Position, ch: TextChar): (r: (bool, Terminal))
    ensures r.0 <==> InBounds(p, t.size)
    ensures !r.0 ==> r.1 == t
    ensures r.0 ==> GetCharacterAt(r.1, p) == Of(ch)
    ensures forall q :: q != p ==> Get(r.1.buffer, q) == Get(t.buffer, q)
    ensures r.1 == t.(buffer := r.1.buffer)
    ensures r.1.buffer.lineCount == t.buffer.lineCount
  {
    if InBounds(p, t.size) then (true, t.(buffer := Set(t.buffer, p, ch))) else (false, t)
  }

  /** Writing a bare glyph directly, in the terminal's active style. */
  function SetGlyphAt(t: Terminal, p: Position, c: char, ctx: StyleContext): (r: (bool, Terminal))
    ensures r.0 <==> InBounds(p, t.size)
    ensures !r.0 ==> r.1 == t
    ensures r.0 ==> GetCharacterAt(r.1, p) == Of(TextChar(c, ctx.style, ctx.blinking))
    ensures forall q :: q != p ==> Get(r.1.buffer, q) == Get(t.buffer, q)
    ensures r.1 == t.(buffer := r.1.buffer)
    ensures r.1.buffer.lineCount == t.buffer.lineCount
  {
    SetCharacterAt(t, p, Build(c, ctx))
  }

  /** The dirty set once the previously drawn caret position, if known and
      different from the cursor, has been added to it. */
  function CarriedDirty(t: Terminal): (r: seq<Position>)
    ensures forall q :: q in r <==> q in t.dirty || (t.lastDrawn == Of(q) && q != t.cursor)
    ensures Valid(t) ==> Ascending(r)
  {
    if t.lastDrawn.Of? && t.lastDrawn.value != t.cursor then Insert(t.dirty, t.lastDrawn.value)
    else t.dirty
  }

  /** A drained position stays dirty when it shows a blinking character;
      a position outside the grid counts as not blinking. */
  predicate BlinkingAt(t: Terminal, q: Position) {
    InBounds(q, t.size) && Get(t.buffer, q).blinking
  }

  /** Every cell of the buffer once, in row-major order. */
  function BufferCells(t: Terminal): (r: seq<Cell>)
    ensures forall q :: q in Positions(r) <==> 0 <= q.column < t.size.columns && 0 <= q.row < t.buffer.lineCount
    ensures Ascending(Positions(r))
    ensures forall i :: 0 <= i < |r| ==> r[i].character == Get(t.buffer, r[i].position)
  {
    CellsAt(t.buffer, Slots(t.size.columns, t.buffer.lineCount))
  }

  /** The cells one drain hands to the renderer, and the terminal after it. */
  datatype Frame = Frame(cells: seq<Cell>, terminal: Terminal)

  /** The per-frame drain. The old caret position is carried over first.
      With the whole-buffer flag up, every buffer cell is emitted and then
      the cursor cell; otherwise the dirty set is emitted in ascending order.
      Afterwards the dirty set holds exactly the blinking drained positions
      and the cursor, the caret is recorded as drawn, and the flag is down. */
  function Drain(t: Terminal): (r: Frame)
    ensures t.wholeBufferDirty ==> Positions(r.cells) == Positions(BufferCells(t)) + [t.cursor]
    ensures !t.wholeBufferDirty ==> Positions(r.cells) == CarriedDirty(t)
    ensures forall i :: 0 <= i < |r.cells| ==> r.cells[i].character == Get(t.buffer, r.cells[i].position)
    ensures forall q :: q in r.terminal.dirty <==> q == t.cursor || (q in CarriedDirty(t) && BlinkingAt(t, q))
    ensures r.terminal.lastDrawn == Of(t.cursor) && !r.terminal.wholeBufferDirty
    ensures IsDirty(r.terminal)
    ensures Valid(t) ==> Valid(r.terminal)
    ensures r.terminal == t.(dirty := r.terminal.dirty, wholeBufferDirty := false, lastDrawn := Of(t.cursor))
  {
    var carried := CarriedDirty(t);
    var cells :=
      if t.wholeBufferDirty then BufferCells(t) + [Cell(t.cursor, Get(t.buffer, t.cursor))]
      else CellsAt(t.buffer, carried);
    var kept := Filter(carried, q => BlinkingAt(t, q));
    Frame(cells, t.(dirty := Insert(kept, t.cursor), wholeBufferDirty := false, lastDrawn := Of(t.cursor)))
  }

  /** Queues an input event behind the ones already waiting. */
  function AddInput(t: Terminal, x: Input): (r: Terminal)
    ensures |r.inputs| == |t.inputs| + 1
    ensures r.inputs[..|t.inputs|] == t.inputs && r.inputs[|t.inputs|] == x
    ensures r == t.(inputs := r.inputs)
  {
    t.(inputs := Enqueue(t.inputs, x))
  }

  /** Takes the oldest queued event, if there is one. */
  function PollInput(t: Terminal): (r: (Optional<Input>, Terminal))
    ensures t.inputs == [] ==> r.0 == Empty && r.1 == t
    ensures t.inputs != [] ==> r.0 == Of(t.inputs[0]) && r.1.inputs == t.inputs[1..]
    ensures r.1 == t.(inputs := r.1.inputs)
  {
    var (x, rest) := Poll(t.inputs);
    (x, t.(inputs := rest))
  }

  /** Closing queues the end-of-stream marker after everything already
      queued; the grid stays usable. */
  function Close(t: Terminal): (r: Terminal)
    ensures r.inputs == t.inputs + [EndOfStream]
    ensures r == t.(inputs := r.inputs)
  {
    AddInput(t, EndOfStream)
  }
}
