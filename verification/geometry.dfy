/** Positions, sizes and the row-major order the terminal iterates in. */
module Geometry {

  /** A cell coordinate: `column` grows to the right, `row` grows downwards.
      The Kotlin fields are 32-bit `Int`s; they are unbounded integers here
      because every cursor move is clamped to the grid, so no coordinate the
      terminal computes comes near the 32-bit limits. */
  datatype Position = Position(column: int, row: int)

  /** The visible grid of a terminal. */
  datatype Size = Size(columns: nat, rows: nat)

  /** The top-left corner, where a new or cleared terminal puts its cursor. */
  const Origin := Position(0, 0)

  function Min(a: int, b: int): int {
    if a <= b then a else b
  }

  /** Strict row-major order: first by row, then by column. */
  predicate Before(p: Position, q: Position) {
    p.row < q.row || (p.row == q.row && p.column < q.column)
  }

  /** Two distinct positions are always ordered one way or the other. */
  lemma BeforeTotal(p: Position, q: Position)
    ensures p == q || Before(p, q) || Before(q, p)
  {
  }

  /** The positions a terminal of `size` can address. */
  predicate InBounds(p: Position, size: Size) {
    0 <= p.column < size.columns && 0 <= p.row < size.rows
  }

  /** The clamp every cursor move goes through: the column may reach
      `columns` itself (the "pending wrap" sentinel), the row at most
      `rows - 1`. */
  function ClampCursor(p: Position, size: Size): (c: Position)
    ensures c.column <= size.columns && c.row <= size.rows - 1
    ensures p.column <= size.columns ==> c.column == p.column
    ensures p.row <= size.rows - 1 ==> c.row == p.row
    ensures p.column > size.columns ==> c.column == size.columns
    ensures p.row > size.rows - 1 ==> c.row == size.rows - 1
  {
    Position(Min(p.column, size.columns), Min(p.row, size.rows - 1))
  }

  /** A position that is already within the cursor's range is a fixed point,
      so clamping twice is clamping once. */
  lemma ClampCursorIdempotent(p: Position, size: Size)
    ensures ClampCursor(ClampCursor(p, size), size) == ClampCursor(p, size)
  {
  }
}
