/** Properties that relate several terminal operations: invariants kept by
    any run of operations, the drain's fixed point, read-back after a write,
    the input stream after closing, and the worked examples. */
module TerminalProperties {
  import opened Optionals
  import opened Geometry
  import opened PositionSet
  import opened TextBuffer
  import opened InputQueue
  import opened VirtualTerminal

  /** One call a client can make on a terminal. */
  datatype Op =
    | CursorTo(position: Position)
    | TypeChar(character: char, context: StyleContext)
    | SizeTo(size: Size)
    | ClearScreen
    | WriteCell(position: Position, textChar: TextChar)
    | DrainCells
    | QueueInput(input: Input)
    | PollQueue
    | CloseTerminal

  function Step(t: Terminal, op: Op, printable: char -> bool): Terminal {
    match op
    case CursorTo(p) => SetCursorPosition(t, p)
    case TypeChar(c, ctx) => PutCharacter(t, c, ctx, printable)
    case SizeTo(s) => SetSize(t, s)
    case ClearScreen => Clear(t)
    case WriteCell(p, ch) => SetCharacterAt(t, p, ch).1
    case DrainCells => Drain(t).terminal
    case QueueInput(x) => AddInput(t, x)
    case PollQueue => PollInput(t).1
    case CloseTerminal => Close(t)
  }

  function Run(t: Terminal, ops: seq<Op>, printable: char -> bool): Terminal
    decreases |ops|
  {
    if ops == [] then t else Run(Step(t, ops[0], printable), ops[1..], printable)
  }

  /** Calls that keep the cursor's lower bounds: cursor moves to
      non-negative coordinates and resizes to at least one row. */
  predicate Admissible(op: Op) {
    match op
    case CursorTo(p) => p.column >= 0 && p.row >= 0
    case SizeTo(s) => s.rows >= 1
    case _ => true
  }

  /** Each single call keeps the dirty set sorted and the cursor in range. */
  lemma StepKeepsInvariants(t: Terminal, op: Op, printable: char -> bool)
    requires Valid(t) && CursorInRange(t) && Admissible(op)
    ensures Valid(Step(t, op, printable)) && CursorInRange(Step(t, op, printable))
  {
  }

  /** From a valid terminal with the cursor in range, any run of admissible
      calls ends in a valid terminal whose cursor row is at most `rows - 1`
      and whose cursor column is at most `columns`. */
  lemma {:induction false} RunKeepsInvariants(t: Terminal, ops: seq<Op>, printable: char -> bool)
    requires Valid(t) && CursorInRange(t)
    requires forall i :: 0 <= i < |ops| ==> Admissible(ops[i])
    ensures Valid(Run(t, ops, printable)) && CursorInRange(Run(t, ops, printable))
    decreases |ops|
  {
    if ops != [] {
      StepKeepsInvariants(t, ops[0], printable);
      assert forall i :: 0 <= i < |ops[1..]| ==> Admissible(ops[1..][i]) by {
        forall i | 0 <= i < |ops[1..]| ensures Admissible(ops[1..][i]) {
          assert ops[1..][i] == ops[i + 1];
        }
      }
      RunKeepsInvariants(Step(t, ops[0], printable), ops[1..], printable);
    }
  }

  /** Every terminal a client can reach from a new one with at least one row
      satisfies both invariants. */
  lemma ReachableTerminalsAreWellFormed(size: Size, ops: seq<Op>, printable: char -> bool)
    requires size.rows >= 1
    requires forall i :: 0 <= i < |ops| ==> Admissible(ops[i])
    ensures Valid(Run(New(size), ops, printable)) && CursorInRange(Run(New(size), ops, printable))
  {
    RunKeepsInvariants(New(size), ops, printable);
  }

  /** With the cursor in range on a grid with columns, the slot a printable
      character is written to is a cell of the grid. */
  lemma WritePositionInBounds(t: Terminal)
    requires CursorInRange(t) && t.size.columns > 0
    ensures InBounds(WritePosition(t), t.size)
  {
  }

  /** A printable character reads back, in the active style, at the slot it
      was written to. */
  lemma PrintableReadsBack(t: Terminal, c: char, ctx: StyleContext, printable: char -> bool)
    requires CursorInRange(t) && t.size.columns > 0
    requires c != '\n' && printable(c)
    ensures GetCharacterAt(PutCharacter(t, c, ctx, printable), WritePosition(t)) == Of(TextChar(c, ctx.style, ctx.blinking))
  {
    WritePositionInBounds(t);
  }

  /** With nothing written in between, a second drain leaves the terminal as
      the first left it, and repaints exactly the blinking cells and the
      cursor. */
  lemma {:induction false} DrainIsIdempotent(t: Terminal)
    requires Valid(t)
    ensures Drain(Drain(t).terminal).terminal == Drain(t).terminal
    ensures forall q :: q in Positions(Drain(Drain(t).terminal).cells) <==>
      q == t.cursor || (q in CarriedDirty(t) && BlinkingAt(t, q))
  {
    var t1 := Drain(t).terminal;
    var t2 := Drain(t1).terminal;
    assert CarriedDirty(t1) == t1.dirty;
    assert t1.size == t.size && t1.buffer == t.buffer && t1.cursor == t.cursor;
    forall q ensures BlinkingAt(t1, q) == BlinkingAt(t, q) {
    }
    AscendingUnique(t2.dirty, t1.dirty);
  }

  /** After closing, polling yields every event queued before, in order, then
      exactly one end-of-stream marker, then nothing, however often one
      polls. */
  lemma ClosedStreamIsFifo(t: Terminal, n: nat)
    ensures var outs := PollTimes(Close(t).inputs, n).0;
      && (forall i :: 0 <= i < n && i < |t.inputs| ==> outs[i] == Of(t.inputs[i]))
      && (|t.inputs| < n ==> outs[|t.inputs|] == Of(EndOfStream))
      && (forall i :: |t.inputs| < i < n ==> outs[i] == Empty)
  {
    PollTimesFifo(Close(t).inputs, n);
  }

  /** A line break on a row below the last grows the cursor row by exactly
      one; the buffer grows only when that row was not there yet. */
  lemma NewlineAdvancesOneRow(t: Terminal, ctx: StyleContext, printable: char -> bool)
    requires t.cursor.row + 1 <= t.size.rows - 1
    ensures var r := PutCharacter(t, '\n', ctx, printable);
      && r.cursor == Position(0, t.cursor.row + 1)
      && (t.cursor.row + 1 >= t.buffer.lineCount ==> r.buffer.lineCount == t.buffer.lineCount + 1)
      && (t.cursor.row + 1 < t.buffer.lineCount ==> r.buffer.lineCount == t.buffer.lineCount)
  {
  }

  /** After shrinking the width, no column at or beyond the new width can be
      read. */
  lemma ShrinkHidesColumns(t: Terminal, newSize: Size, p: Position)
    requires p.column >= newSize.columns
    ensures GetCharacterAt(SetSize(t, newSize), p) == Empty
  {
  }

  /** Moving the cursor to column 5 of a three-column grid leaves it on the
      sentinel column 3, not on column 2. */
  lemma CursorClampsToSentinel()
    ensures SetCursorPosition(New(Size(3, 2)), Position(5, 0)).cursor == Position(3, 0)
  {
  }

  /** Moving the cursor does not grow the buffer, so the buffer can hold
      fewer lines than the cursor row suggests. */
  lemma LineCountCanLagCursor()
    ensures var t := SetCursorPosition(New(Size(10, 10)), Position(0, 5));
      t.buffer.lineCount == 1 && t.cursor.row == 5
  {
  }

  /** A three by two grid: typing A, B, C fills row 0 and wraps the cursor,
      D lands at the start of row 1, and the next drain repaints both (2, 0)
      and (0, 1). */
  lemma WrapScenario(ctx: StyleContext, printable: char -> bool)
    requires printable('A') && printable('B') && printable('C') && printable('D')
    ensures var t := TypeABCD(New(Size(3, 2)), ctx, printable);
      && Valid(t) && t.size == Size(3, 2) && t.lastDrawn.Empty? && !t.wholeBufferDirty
      && Position(3, 0) in t.dirty
      && (!ctx.blinking ==> NothingBlinks(t))
      && t.cursor == Position(1, 1)
      && GetCharacterAt(t, Position(2, 0)) == Of(Build('C', ctx))
      && GetCharacterAt(t, Position(0, 1)) == Of(Build('D', ctx))
      && Position(2, 0) in Positions(Drain(t).cells)
      && Position(0, 1) in Positions(Drain(t).cells)
  {
    var t0 := New(Size(3, 2));
    PutTypedChar(t0, 'A', ctx, printable);
    var t1 := PutCharacter(t0, 'A', ctx, printable);
    assert t1.cursor == Position(1, 0);
    PutTypedChar(t1, 'B', ctx, printable);
    var t2 := PutCharacter(t1, 'B', ctx, printable);
    assert t2.cursor == Position(2, 0);
    PutTypedChar(t2, 'C', ctx, printable);
    var t3 := PutCharacter(t2, 'C', ctx, printable);
    assert t3.cursor == Position(0, 1);
    PutTypedChar(t3, 'D', ctx, printable);
    var t := PutCharacter(t3, 'D', ctx, printable);
    assert t == TypeABCD(t0, ctx, printable);
    assert Get(t.buffer, Position(2, 0)) == Build('C', ctx);
    assert Position(2, 0) in t.dirty && Position(0, 1) in t.dirty;
    assert !t.wholeBufferDirty && t.lastDrawn.Empty?;
  }

  /** Typing A, B, C and D. */
  function TypeABCD(t: Terminal, ctx: StyleContext, printable: char -> bool): Terminal {
    var t1 := PutCharacter(t, 'A', ctx, printable);
    var t2 := PutCharacter(t1, 'B', ctx, printable);
    var t3 := PutCharacter(t2, 'C', ctx, printable);
    PutCharacter(t3, 'D', ctx, printable)
  }

  /** No cell of the buffer shows a blinking character. */
  ghost predicate NothingBlinks(t: Terminal) {
    forall q :: !Get(t.buffer, q).blinking
  }

  /** One printable character typed with the cursor in range: it lands at
      the write position and the cursor advances, wrapping at the end of the
      line. */
  lemma PutTypedChar(t: Terminal, c: char, ctx: StyleContext, printable: char -> bool)
    requires CursorInRange(t) && t.size.columns > 0 && c != '\n' && printable(c)
    ensures var r := PutCharacter(t, c, ctx, printable);
      && r.cursor == AdvancedCursor(WritePosition(t), t.size)
      && Get(r.buffer, WritePosition(t)) == Build(c, ctx)
      && (forall q :: q != WritePosition(t) ==> Get(r.buffer, q) == Get(t.buffer, q))
      && WritePosition(t) in r.dirty && (forall q :: q in t.dirty ==> q in r.dirty)
      && r.size == t.size && r.wholeBufferDirty == t.wholeBufferDirty && r.lastDrawn == t.lastDrawn
      && CursorInRange(r)
      && (Valid(t) ==> Valid(r))
      && (!ctx.blinking && NothingBlinks(t) ==> NothingBlinks(r))
  {
  }

  /** A terminal that is dirty stays dirty after any call: every call either
      leaves the dirty state alone, adds the cursor to the dirty set, or
      raises the whole-buffer flag, and the drain keeps the cursor dirty. */
  lemma StepKeepsDirty(t: Terminal, op: Op, printable: char -> bool)
    requires IsDirty(t)
    ensures IsDirty(Step(t, op, printable))
  {
    match op {
      case TypeChar(c, ctx) =>
        var r := PutCharacter(t, c, ctx, printable);
        if c != '\n' && printable(c) {
          assert r.cursor in r.dirty;
        }
      case _ =>
    }
  }

  /** Any run of calls keeps a dirty terminal dirty. */
  lemma {:induction false} RunKeepsDirty(t: Terminal, ops: seq<Op>, printable: char -> bool)
    requires IsDirty(t)
    ensures IsDirty(Run(t, ops, printable))
    decreases |ops|
  {
    if ops != [] {
      StepKeepsDirty(t, ops[0], printable);
      RunKeepsDirty(Step(t, ops[0], printable), ops[1..], printable);
    }
  }

  /** A terminal is dirty from the moment it is created and never stops
      being dirty: the drain re-adds the cursor every time. */
  lemma ReachableTerminalsAreDirty(size: Size, ops: seq<Op>, printable: char -> bool)
    ensures IsDirty(Run(New(size), ops, printable))
  {
    RunKeepsDirty(New(size), ops, printable);
  }

  /** The cursor is at the end of the line after a move exactly when the
      requested column reaches the width: the clamp parks it on the
      sentinel column. */
  lemma EndOfLineIsTheSentinel(t: Terminal, p: Position)
    ensures CursorIsAtTheEndOfTheLine(SetCursorPosition(t, p)) <==> p.column >= t.size.columns
  {
  }

  /** Typing into the last cell of the last row does not scroll: the cursor
      wraps to the start of that same row, so the next character overwrites
      it. */
  lemma LastRowDoesNotScroll(t: Terminal, c: char, ctx: StyleContext, printable: char -> bool)
    requires CursorInRange(t) && t.size.columns > 0 && c != '\n' && printable(c)
    requires WritePosition(t) == Position(t.size.columns - 1, t.size.rows - 1)
    ensures PutCharacter(t, c, ctx, printable).cursor == Position(0, t.size.rows - 1)
  {
    PutTypedChar(t, c, ctx, printable);
  }

  /** One row of two columns: typing A, B, C puts C on top of A at (0, 0),
      because the full last row wraps onto itself. */
  lemma OverwriteScenario(ctx: StyleContext, printable: char -> bool)
    requires printable('A') && printable('B') && printable('C')
    ensures var t0 := New(Size(2, 1));
      var t := PutCharacter(PutCharacter(PutCharacter(t0, 'A', ctx, printable), 'B', ctx, printable), 'C', ctx, printable);
      && GetCharacterAt(t, Position(0, 0)) == Of(Build('C', ctx))
      && GetCharacterAt(t, Position(1, 0)) == Of(Build('B', ctx))
      && t.cursor == Position(1, 0) && t.buffer.lineCount == 1
  {
    var t0 := New(Size(2, 1));
    PutTypedChar(t0, 'A', ctx, printable);
    var t1 := PutCharacter(t0, 'A', ctx, printable);
    assert t1.cursor == Position(1, 0);
    LastRowDoesNotScroll(t1, 'B', ctx, printable);
    PutTypedChar(t1, 'B', ctx, printable);
    var t2 := PutCharacter(t1, 'B', ctx, printable);
    assert t2.cursor == Position(0, 0);
    PutTypedChar(t2, 'C', ctx, printable);
  }
}
