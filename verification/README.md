# Virtual terminal state machine (zircon) in Dafny

This project models zircon's `VirtualTerminal`. It is a character grid that sits between an
application that writes text and a renderer that repaints the screen.

The terminal owns six pieces of state:

- a grid size;
- a cursor whose column may equal the width (the "pending wrap" sentinel);
- a character buffer whose line count grows one line at a time;
- a row-major set of dirty positions, plus a flag that marks the whole buffer dirty;
- the position where the caret was last drawn;
- a first-in first-out queue of input events.

Every public operation is modelled as a pure function from one immutable `Terminal` value to the
next. The renderer's per-frame drain (`forEachDirtyCell`) returns the cells it would hand to the
callback together with the terminal that follows.

Modules, leaves first:

- `Optionals`: `Optional` (absent / present), after `java.util.Optional`.
- `Geometry`: `Position`, `Size`, the row-major order, the grid bounds and the cursor clamp.
- `PositionSet`: the dirty set as a strictly ascending sequence, which is the order a tree set
  iterates in. Adding and filtering keep it sorted. Two sorted sequences with the same elements
  are equal.
- `TextBuffer`: styled characters and the buffer, seen from the outside. The buffer is a map
  from position to character with a blank default, plus a line count. A new line adds one line.
  Clearing resets to one blank line. Resizing truncates every line to the new width. The module
  also enumerates every slot in row-major order.
- `InputQueue`: input events, enqueue, non-blocking poll, and the FIFO law for repeated polls.
- `VirtualTerminal`: the terminal state and its operations, each with its contract.
- `TerminalProperties`: lemmas that relate several operations. They cover the invariants kept by
  any run of calls, drain idempotence, read-back, the input stream after closing, and the worked
  examples.
- `DrainAsWritten`: the blink retention of the drain as the source writes it (see Findings).

Parameters stand in for code this model does not contain:

- The "is printable" predicate is a parameter `printable: char -> bool` of `PutCharacter`.
- The active foreground, background and modifiers are a `StyleContext` parameter.
- The blink modifier is the boolean `blinking` of a `TextChar`.
- `Position.UNKNOWN` is `Empty` in `lastDrawn`.
- The cursor of a new terminal starts at the origin; `DefaultCursorHolder` (VirtualTerminal.kt:38)
  is not part of this model.
- `containsPosition` is taken as `0 <= column < columns && 0 <= row < rows` of the current size.
- The buffer's width is the terminal's column count.

Behaviour of the code worth knowing, which the model keeps:

- The code does not keep the line count at least cursor row + 1. `setCursorPosition`
  (VirtualTerminal.kt:46-53) never grows the buffer; only a line advance does
  (`TerminalProperties.LineCountCanLagCursor`).
- Every `dirtyTerminalCells.add` (VirtualTerminal.kt:43, 52, 100, 103, 155, 170) adds regardless
  of the whole-buffer flag. `setSize` raises the flag without emptying the explicit set. Only
  `setWholeBufferDirty` (through `clear`) and the drain (line 167) empty it.
- There is no closed state. `close` (VirtualTerminal.kt:115-118) only enqueues the end-of-stream
  marker, and the terminal stays usable.
- The re-clamp inside `setSize` bounds the row by `rows`, not `rows - 1`. The clamp in
  `setCursorPosition` then applies `rows - 1` anyway, so the cursor ends exactly where a direct
  clamp of the old cursor would put it.
- `isDirty` never becomes false on a terminal: the initial state marks the cursor dirty, every
  cursor move and typed character adds the cursor, and every drain re-adds the cursor
  (`TerminalProperties.ReachableTerminalsAreDirty`).
- Nothing scrolls. The cursor row is clamped to `rows - 1` (VirtualTerminal.kt:51, 179), so once
  the last row is full, typing wraps to the start of that same row and overwrites it
  (`TerminalProperties.LastRowDoesNotScroll`, `TerminalProperties.OverwriteScenario`).

## Model

| member | source | states |
|---|---|---|
| `VirtualTerminal.New` | src/main/kotlin/org/codetome/zircon/terminal/virtual/VirtualTerminal.kt:35-44 | a new terminal has its cursor at the origin, and that position is already dirty, so `isDirty` holds at once; the dirty set is sorted |
| `Geometry.ClampCursor` | src/main/kotlin/org/codetome/zircon/terminal/virtual/VirtualTerminal.kt:48-51 | the clamped column is at most `columns` and may equal it (the sentinel); the clamped row is at most `rows - 1`; coordinates already in range are kept; larger ones become the bound |
| `Geometry.ClampCursorIdempotent` | src/main/kotlin/org/codetome/zircon/terminal/virtual/VirtualTerminal.kt:48-51 | clamping an already clamped position changes nothing |
| `VirtualTerminal.SetCursorPosition` | src/main/kotlin/org/codetome/zircon/terminal/virtual/VirtualTerminal.kt:46-53 | the cursor becomes the clamped position; the dirty set gains exactly that position; sortedness is kept; no other field changes |
| `VirtualTerminal.MoveCursorToNextLine` | src/main/kotlin/org/codetome/zircon/terminal/virtual/VirtualTerminal.kt:178-183 | cursor to column 0 of row `min(row + 1, rows - 1)`; the buffer gains one line exactly when that row is at or past the line count, otherwise the line count is unchanged; characters are untouched; only the new cursor becomes dirty |
| `VirtualTerminal.CheckCursorPosition` | src/main/kotlin/org/codetome/zircon/terminal/virtual/VirtualTerminal.kt:106-110 | a cursor off the sentinel column stays and nothing changes; a cursor on it moves to the start of the next line, and the buffer gains one line exactly when that row is at or past the line count (never more); on a grid with columns the column is afterwards below `columns` |
| `VirtualTerminal.PutTextChar` | src/main/kotlin/org/codetome/zircon/terminal/virtual/VirtualTerminal.kt:96-104 | the character lands at the write position (the cursor, or the next line's start when the cursor was on the sentinel); every other slot is unchanged; the new dirty positions are exactly the written slot, the advanced (clamped) cursor and the final cursor; afterwards the cursor is one column on, wrapping to the next line instead of resting on the sentinel |
| `VirtualTerminal.PutCharacter` | src/main/kotlin/org/codetome/zircon/terminal/virtual/VirtualTerminal.kt:82-94 | a line break moves to column 0 of the next (clamped) row, adds a line exactly when that row is new and marks exactly the new cursor dirty; a printable character is written in the active style and leaves the cursor below `columns`; any other character changes nothing; the whole-buffer flag and the last drawn caret are never touched; sortedness and cursor range are kept |
| `VirtualTerminal.SetSize` | src/main/kotlin/org/codetome/zircon/terminal/virtual/VirtualTerminal.kt:57-73 | the current size changes nothing; a new size is recorded with the whole-buffer flag up; the cursor becomes the old cursor clamped to the new size (row at most `rows - 1`, column at most `columns`); a cursor that was out of range is then marked dirty; a cursor inside the new grid and the dirty set stay as they were; the line count is kept; columns inside the new width keep their characters |
| `VirtualTerminal.SetWholeBufferDirty` | src/main/kotlin/org/codetome/zircon/terminal/virtual/VirtualTerminal.kt:185-188 | the flag is up and the explicit set is empty, so the terminal is dirty |
| `VirtualTerminal.Clear` | src/main/kotlin/org/codetome/zircon/terminal/virtual/VirtualTerminal.kt:75-80 | the buffer is one blank line; the whole-buffer flag is up; the cursor is the clamped origin (the origin itself when there is a row); the explicit dirty set is exactly that cursor |
| `VirtualTerminal.GetCharacterAt` | src/main/kotlin/org/codetome/zircon/terminal/virtual/VirtualTerminal.kt:127-133 | present exactly for positions inside the grid, and then the buffer's character there |
| `VirtualTerminal.SetCharacterAt` | src/main/kotlin/org/codetome/zircon/terminal/virtual/VirtualTerminal.kt:135-142 | succeeds exactly inside the grid; on failure nothing changes; on success a following read returns the character; other cells, the line count and the dirty set are untouched |
| `VirtualTerminal.SetGlyphAt` | src/main/kotlin/org/codetome/zircon/terminal/virtual/VirtualTerminal.kt:144-149 | the bare-glyph overload succeeds exactly inside the grid and reads back as the glyph in the active style; every other cell, the line count, the cursor, the dirty set and every other field are untouched |
| `VirtualTerminal.CarriedDirty` | src/main/kotlin/org/codetome/zircon/terminal/virtual/VirtualTerminal.kt:153-156 | the dirty set plus the last drawn caret position, exactly when that position is known and differs from the cursor; still sorted |
| `VirtualTerminal.BufferCells` | src/main/kotlin/org/codetome/zircon/terminal/virtual/VirtualTerminal.kt:173-175 | every slot of the buffer (columns of the grid by the line count) exactly once, in row-major order, each with its character |
| `VirtualTerminal.Drain` | src/main/kotlin/org/codetome/zircon/terminal/virtual/VirtualTerminal.kt:151-171 | with the flag up it emits every buffer cell and then the cursor cell; otherwise the carried dirty set in ascending order, each with its character; afterwards the dirty set is exactly the cursor plus the blinking carried positions, the caret is recorded as drawn, the flag is down, and the terminal is still dirty |
| `VirtualTerminal.AddInput` | src/main/kotlin/org/codetome/zircon/terminal/virtual/VirtualTerminal.kt:123-125 | the event goes behind every event already queued; nothing else changes |
| `VirtualTerminal.PollInput` | src/main/kotlin/org/codetome/zircon/terminal/virtual/VirtualTerminal.kt:120-121 | absent and no change on an empty queue; otherwise the oldest event, removed from the front |
| `VirtualTerminal.Close` | src/main/kotlin/org/codetome/zircon/terminal/virtual/VirtualTerminal.kt:115-118 | exactly one end-of-stream marker is queued after all earlier inputs; the grid is untouched |
| `InputQueue.Poll` | src/main/kotlin/org/codetome/zircon/terminal/virtual/VirtualTerminal.kt:121 | a poll is absent exactly on an empty queue; otherwise the returned head followed by the remaining queue is the original queue |
| `InputQueue.PollTimesFifo` | src/main/kotlin/org/codetome/zircon/terminal/virtual/VirtualTerminal.kt:120-125 | `n` successive polls return the queued events in enqueue order, then absence; what remains is the unasked-for suffix |
| `PositionSet.Insert` | src/main/kotlin/org/codetome/zircon/terminal/virtual/VirtualTerminal.kt:31 | adding to the sorted dirty set yields exactly the old elements plus the new one, still sorted |
| `PositionSet.Filter` | src/main/kotlin/org/codetome/zircon/terminal/virtual/VirtualTerminal.kt:166-168 | the kept positions are exactly those satisfying the predicate, in their original order |
| `PositionSet.AscendingUnique` | src/main/kotlin/org/codetome/zircon/terminal/virtual/VirtualTerminal.kt:31 | a sorted set has one representation: two ascending sequences with the same elements are equal |
| `TextBuffer.Resize` | src/main/kotlin/org/codetome/zircon/terminal/virtual/VirtualTerminal.kt:61 | reflowing keeps the line count and every character inside the new width, and blanks everything beyond it |
| `TextBuffer.Slots` | src/main/kotlin/org/codetome/zircon/terminal/virtual/VirtualTerminal.kt:158 | the buffer's slots are enumerated in strictly ascending row-major order, each in-range slot exactly once and nothing else |
| `TerminalProperties.StepKeepsInvariants` | src/main/kotlin/org/codetome/zircon/terminal/virtual/VirtualTerminal.kt:46-142 | each public call keeps the dirty set sorted and the cursor within `0..columns` by `0..rows-1`, given non-negative cursor targets and at least one row |
| `TerminalProperties.RunKeepsInvariants` | src/main/kotlin/org/codetome/zircon/terminal/virtual/VirtualTerminal.kt:46-171 | any sequence of such calls keeps both invariants, so the cursor column never passes the width |
| `TerminalProperties.ReachableTerminalsAreWellFormed` | src/main/kotlin/org/codetome/zircon/terminal/virtual/VirtualTerminal.kt:35-53 | every terminal reachable from a new one with at least one row satisfies both invariants |
| `TerminalProperties.WritePositionInBounds` | src/main/kotlin/org/codetome/zircon/terminal/virtual/VirtualTerminal.kt:98-99 | after the wrap check, the slot written is a cell of the grid |
| `TerminalProperties.PrintableReadsBack` | src/main/kotlin/org/codetome/zircon/terminal/virtual/VirtualTerminal.kt:86-99 | a typed printable character reads back at its write position as the glyph in the style active when it was typed |
| `TerminalProperties.DrainIsIdempotent` | src/main/kotlin/org/codetome/zircon/terminal/virtual/VirtualTerminal.kt:151-171 | with nothing written in between, a second drain leaves the terminal as the first left it and repaints exactly the blinking cells and the cursor |
| `TerminalProperties.ClosedStreamIsFifo` | src/main/kotlin/org/codetome/zircon/terminal/virtual/VirtualTerminal.kt:115-125 | after closing, polls return every earlier event in order, then one end-of-stream marker, then nothing |
| `TerminalProperties.NewlineAdvancesOneRow` | src/main/kotlin/org/codetome/zircon/terminal/virtual/VirtualTerminal.kt:178-183 | below the last row, a line break lands at column 0 of exactly the next row; the line count grows by one exactly when that row did not exist |
| `TerminalProperties.ShrinkHidesColumns` | src/main/kotlin/org/codetome/zircon/terminal/virtual/VirtualTerminal.kt:127-133 | after a resize, no column at or beyond the new width can be read |
| `TerminalProperties.CursorClampsToSentinel` | src/main/kotlin/org/codetome/zircon/terminal/virtual/VirtualTerminal.kt:48-51 | column 5 on a three-column grid clamps to 3, the sentinel, not to 2 |
| `TerminalProperties.LineCountCanLagCursor` | src/main/kotlin/org/codetome/zircon/terminal/virtual/VirtualTerminal.kt:178-183 | moving the cursor to row 5 leaves a one-line buffer: only line advances grow it |
| `TerminalProperties.StepKeepsDirty` | src/main/kotlin/org/codetome/zircon/terminal/virtual/VirtualTerminal.kt:190 | no public call makes a dirty terminal clean: each one keeps the state, adds the cursor to the dirty set, or raises the whole-buffer flag |
| `TerminalProperties.RunKeepsDirty` | src/main/kotlin/org/codetome/zircon/terminal/virtual/VirtualTerminal.kt:190 | any sequence of calls keeps a dirty terminal dirty |
| `TerminalProperties.ReachableTerminalsAreDirty` | src/main/kotlin/org/codetome/zircon/terminal/virtual/VirtualTerminal.kt:42-44 | `isDirty` holds for every terminal reachable from a new one, after every drain included |
| `TerminalProperties.EndOfLineIsTheSentinel` | src/main/kotlin/org/codetome/zircon/terminal/virtual/VirtualTerminal.kt:192 | after a cursor move the cursor is at the end of the line exactly when the requested column reaches the width |
| `TerminalProperties.LastRowDoesNotScroll` | src/main/kotlin/org/codetome/zircon/terminal/virtual/VirtualTerminal.kt:96-110 | writing the last cell of the last row wraps the cursor to the start of that same row; nothing scrolls |
| `TerminalProperties.OverwriteScenario` | src/main/kotlin/org/codetome/zircon/terminal/virtual/VirtualTerminal.kt:96-110 | on one row of two columns, typing A, B, C leaves C at (0, 0) over A, B at (1, 0), the cursor at (1, 0) and a one-line buffer |
| `TerminalProperties.WrapScenario` | src/main/kotlin/org/codetome/zircon/terminal/virtual/VirtualTerminal.kt:96-110 | on a three by two grid, typing A, B, C wraps the cursor; D lands at (0, 1); the cursor ends at (1, 1); the next drain repaints (2, 0) and (0, 1) |
| `TerminalProperties.PutTypedChar` | src/main/kotlin/org/codetome/zircon/terminal/virtual/VirtualTerminal.kt:96-104 | a printable character typed with the cursor in range lands at the write position, advances the cursor with wrap, and keeps earlier dirty positions |
| `DrainAsWritten.BlinkFilterAsWritten` | src/main/kotlin/org/codetome/zircon/terminal/virtual/VirtualTerminal.kt:166 | the filter as written fails exactly when some drained position lies outside the grid; otherwise it keeps exactly the blinking positions, in order |
| `DrainAsWritten.DrainAsWritten` | src/main/kotlin/org/codetome/zircon/terminal/virtual/VirtualTerminal.kt:151-171 | the drain as written fails exactly when the carried dirty set holds a position outside the grid; whenever it succeeds it equals the corrected `Drain` |
| `DrainAsWritten.LastColumnWriteBreaksDrain` | src/main/kotlin/org/codetome/zircon/terminal/virtual/VirtualTerminal.kt:101 | writing the last column of a line marks that line's sentinel position dirty, so the next drain as written fails |
| `DrainAsWritten.WrapScenarioBreaksDrain` | src/main/kotlin/org/codetome/zircon/terminal/virtual/VirtualTerminal.kt:166 | in the three by two example with nothing blinking, the drain as written fails; the corrected drain leaves exactly the cursor (1, 1) dirty |

## Left out

- Locking (`@Synchronized`) and the thread safety of `LinkedBlockingQueue`: every call is one atomic transition, and the queue is a plain sequence.
- Listeners and notifications (`onResized`, `onFlush`, `onClose`, `super.onResized`) and hence `flush`: they carry no terminal state.
- `Layerable` / `DefaultLayerable` and `CursorHolder` delegation: the cursor is a plain field; `getBoundableSize` just returns the size.
- `TextCharacterBuffer` is not part of this model. It is modelled abstractly: a map with a blank default and a line count. Reflow truncates to the new width and keeps the row count. `forEachCell` enumerates the grid in row-major order.
- `TextUtils.isPrintableCharacter`, `TextCharacterBuilder` and `toStyleSet` are not part of this model. The first is the `printable` parameter; the others become `Build` over a `StyleContext` parameter.
- `KeyStroke` and `MouseAction` internals: an input event carries its fields but no behaviour.
- `KeyStroke.EOF_STROKE` is a key stroke of input type EOF in the source; here it is its own variant `EndOfStream`, since the model only needs to tell it apart from every other event.
- The blank character's colours are placeholders (`DefaultStyle`), since the source's defaults are not part of this model.
- `Position.UNKNOWN` is a separate `Empty` value, so a cursor can never compare equal to it.
- The exception from the unguarded unwrap is modelled as an absent result. The partial effects the source leaves behind when it throws are not modelled: cells already emitted, the carried-over position, the lowered flag.
- `VirtualTerminal.PutTextChar`: bounds the line-count growth between zero and two lines (one per wrap check that fires), without saying which.

## Findings

| source | as written | input that shows it | evidently intended | confidence | as-written member | corrected member |
|---|---|---|---|---|---|---|
| src/main/kotlin/org/codetome/zircon/terminal/virtual/VirtualTerminal.kt:166 | blink retention unwraps `getCharacterAt(it).get()`, which is empty for a position outside the grid | terminal of 3 columns by 2 rows, type "ABCD", drain: line 101 made the sentinel (3, 0) dirty, so the unwrap throws (lemma `DrainAsWritten.WrapScenarioBreaksDrain`) | a drained position outside the grid counts as not blinking and is dropped | medium, not executed; assumes `containsPosition` is the strict grid bound | `DrainAsWritten.DrainAsWritten` | `VirtualTerminal.Drain` |
