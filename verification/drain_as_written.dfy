/** The drain's blink retention as the Kotlin source writes it. Each drained
    position is read back through the bounds-checked `getCharacterAt` and the
    optional it returns is unwrapped unconditionally, which throws for a
    position outside the grid. The cursor's pending-wrap column is such a
    position, and writing the last column of a line marks it dirty, so the
    drain after a full line fails. `VirtualTerminal.Drain` is the corrected
    drain, which counts a position outside the grid as not blinking. */
module DrainAsWritten {
  import opened Optionals
  import opened Geometry
  import opened PositionSet
  import opened TextBuffer
  import opened VirtualTerminal
  import opened TerminalProperties

  /** The blink filter as written: `Empty` stands for the exception thrown by
      unwrapping an absent character. */
  function BlinkFilterAsWritten(t: Terminal, s: seq<Position>): (r: Optional<seq<Position>>)
    ensures r.Empty? <==> exists q :: q in s && !InBounds(q, t.size)
    ensures r.Of? ==> forall q :: q in r.value <==> q in s && BlinkingAt(t, q)
    ensures r.Of? && Ascending(s) ==> Ascending(r.value)
    decreases |s|
  {
    if s == [] then Of([])
    else
      assert forall q :: q in s <==> q == s[0] || q in s[1..] by {
        assert s == [s[0]] + s[1..];
      }
      match GetCharacterAt(t, s[0])
      case Empty => Empty
      case Of(ch) =>
        match BlinkFilterAsWritten(t, s[1..])
        case Empty => Empty
        case Of(rest) =>
          var r := if ch.blinking then [s[0]] + rest else rest;
          assert Ascending(s) ==> Ascending(r) by {
            if Ascending(s) {
              assert Ascending(s[1..]) by {
                forall i, j | 0 <= i < j < |s[1..]| ensures Before(s[1..][i], s[1..][j]) {
                  assert s[1..][i] == s[i + 1] && s[1..][j] == s[j + 1];
                }
              }
              forall x, y | x in (if ch.blinking then [s[0]] else []) && y in rest
                ensures Before(x, y)
              {
                HeadBeforeTail(s, y);
              }
              AscendingConcat(if ch.blinking then [s[0]] else [], rest);
            }
          }
          Of(r)
  }

  /** The drain as written: it fails exactly when the carried-over dirty set
      holds a position outside the grid; whenever it succeeds it agrees with
      the corrected drain. */
  function DrainAsWritten(t: Terminal): (r: Optional<Frame>)
    requires Valid(t)
    ensures r.Empty? <==> exists q :: q in CarriedDirty(t) && !InBounds(q, t.size)
    ensures r.Of? ==> r.value == Drain(t)
  {
    var carried := CarriedDirty(t);
    match BlinkFilterAsWritten(t, carried)
    case Empty => Empty
    case Of(kept) =>
      var cells :=
        if t.wholeBufferDirty then BufferCells(t) + [Cell(t.cursor, Get(t.buffer, t.cursor))]
        else CellsAt(t.buffer, carried);
      var r := Frame(cells, t.(dirty := Insert(kept, t.cursor), wholeBufferDirty := false, lastDrawn := Of(t.cursor)));
      AscendingUnique(Insert(kept, t.cursor), Drain(t).terminal.dirty);
      Of(r)
  }

  /** Writing the last column of a line marks the pending-wrap position of
      that line dirty, so the next drain as written fails. */
  lemma LastColumnWriteBreaksDrain(t: Terminal, ch: TextChar)
    requires Valid(t) && CursorInRange(t) && t.size.columns > 0
    requires WritePosition(t).column == t.size.columns - 1
    ensures Position(t.size.columns, WritePosition(t).row) in PutTextChar(t, ch).dirty
    ensures DrainAsWritten(PutTextChar(t, ch)).Empty?
  {
    var w := WritePosition(t);
    var sentinel := Position(t.size.columns, w.row);
    assert ClampCursor(Position(w.column + 1, w.row), t.size) == sentinel;
    assert sentinel in CarriedDirty(PutTextChar(t, ch)) && !InBounds(sentinel, t.size);
  }

  /** The three by two example: after typing A, B, C and D the drain as
      written fails, while the corrected drain repaints (2, 0) and (0, 1)
      and keeps only the cursor dirty when nothing blinks. */
  lemma WrapScenarioBreaksDrain(ctx: StyleContext, printable: char -> bool)
    requires printable('A') && printable('B') && printable('C') && printable('D')
    requires !ctx.blinking
    ensures var t := TypeABCD(New(Size(3, 2)), ctx, printable);
      && DrainAsWritten(t).Empty?
      && Drain(t).terminal.dirty == [Position(1, 1)]
  {
    WrapScenario(ctx, printable);
    var t := TypeABCD(New(Size(3, 2)), ctx, printable);
    assert !InBounds(Position(3, 0), t.size);
    var d := Drain(t).terminal.dirty;
    forall q | q in d ensures q == Position(1, 1) {
      assert !BlinkingAt(t, q);
    }
    AscendingUnique(d, [Position(1, 1)]);
  }
}
