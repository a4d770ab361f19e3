/** The character buffer behind a terminal, seen from the outside: a store of
    styled characters keyed by position with a blank default, plus a count of
    lines that grows one line at a time. */
module TextBuffer {
  import opened Geometry
  import opened PositionSet

  /** Foreground colour, background colour and the active modifiers other
      than blink; the model does not interpret them. */
  datatype Style = Style(foreground: int, background: int, modifiers: set<nat>)

  /** An immutable styled character; `blinking` is the blink modifier. */
  datatype TextChar = TextChar(glyph: char, style: Style, blinking: bool)

  const DefaultStyle := Style(0, 0, {})

  /** What an unwritten slot holds. */
  const Blank := TextChar(' ', DefaultStyle, false)

  datatype Buffer = Buffer(cells: map<Position, TextChar>, lineCount: nat)

  /** A fresh or cleared buffer: one blank line. */
  const EmptyBuffer := Buffer(map[], 1)

  /** A (position, character) pair handed to a renderer. */
  datatype Cell = Cell(position: Position, character: TextChar)

  function Get(b: Buffer, p: Position): TextChar {
    if p in b.cells then b.cells[p] else Blank
  }

  /** Writing one slot changes that slot and nothing else. */
  function Set(b: Buffer, p: Position, ch: TextChar): (r: Buffer)
    ensures Get(r, p) == ch
    ensures forall q :: q != p ==> Get(r, q) == Get(b, q)
    ensures r.lineCount == b.lineCount
  {
    b.(cells := b.cells[p := ch])
  }

  /** Appending a blank line keeps every stored character. */
  function NewLine(b: Buffer): (r: Buffer)
    ensures r.lineCount == b.lineCount + 1
    ensures forall q :: Get(r, q) == Get(b, q)
  {
    b.(lineCount := b.lineCount + 1)
  }

  /** Reflowing to a new width: every line is truncated to `columns` slots
      (or padded with blanks), and the number of lines is kept. */
  function Resize(b: Buffer, columns: nat): (r: Buffer)
    ensures r.lineCount == b.lineCount
    ensures forall q: Position :: q.column < columns ==> Get(r, q) == Get(b, q)
    ensures forall q: Position :: q.column >= columns ==> Get(r, q) == Blank
  {
    Buffer(map q | q in b.cells && q.column < columns :: b.cells[q], b.lineCount)
  }

  /** The slots of one line, left to right. */
  function LineSlots(row: int, columns: nat): (r: seq<Position>)
    ensures |r| == columns
    ensures forall q :: q in r <==> q.row == row && 0 <= q.column < columns
    ensures Ascending(r)
  {
    var r := seq(columns, c => Position(c, row));
    assert forall q: Position | q.row == row && 0 <= q.column < columns :: r[q.column] == q;
    r
  }

  /** Every slot of a buffer `columns` wide and `lines` long, in row-major
      order: each slot of the grid appears, exactly once, and nothing else. */
  function Slots(columns: nat, lines: nat): (r: seq<Position>)
    ensures forall q :: q in r <==> 0 <= q.column < columns && 0 <= q.row < lines
    ensures Ascending(r)
    decreases lines
  {
    if lines == 0 then []
    else
      var upper := Slots(columns, lines - 1);
      var last := LineSlots(lines - 1, columns);
      forall x, y | x in upper && y in last ensures Before(x, y) {
      }
      AscendingConcat(upper, last);
      upper + last
  }

  /** Pairs each position with the character the buffer holds there. */
  function CellsAt(b: Buffer, ps: seq<Position>): (r: seq<Cell>)
    ensures |r| == |ps|
    ensures Positions(r) == ps
    ensures forall i :: 0 <= i < |ps| ==> r[i].position == ps[i] && r[i].character == Get(b, ps[i])
  {
    seq(|ps|, i requires 0 <= i < |ps| => Cell(ps[i], Get(b, ps[i])))
  }

  /** The positions of a sequence of cells, in order. */
  function Positions(cells: seq<Cell>): (r: seq<Position>)
    ensures |r| == |cells|
    ensures forall i :: 0 <= i < |cells| ==> r[i] == cells[i].position
  {
    seq(|cells|, i requires 0 <= i < |cells| => cells[i].position)
  }
}
