// Shared value types of the company registry model.

module Common {

  datatype Option<T> = None | Some(value: T)

  /** A value stored in an SQLite cell: the table only ever holds text and
      (integer or real) numbers, and INTEGER and REAL compare numerically. */
  datatype Value = Text(s: string) | Num(r: real)

  /** A cell of a row: `None` is SQL NULL. */
  type Cell = Option<Value>

  /** Text cell helper. */
  function TextCell(s: string): Cell { Some(Text(s)) }

  /** Numeric cell helper. */
  function NumCell(r: real): Cell { Some(Num(r)) }
}
