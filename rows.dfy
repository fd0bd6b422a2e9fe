/**
 * The coordinate record that the table parser emits and the canvas builder
 * consumes: the dictionary `{"x": x, "char": char, "y": y}`.
 */
module Rows {
  import opened Text

  /** One validated table row; `glyph` is the record's `"char"` entry. */
  datatype Record = Record(x: int, glyph: string, y: int)

  /**
   * What closing a row yields from the cell strings collected for it:
   * a record when there are exactly three cells and the first and third
   * are integers, nothing otherwise (the `ValueError` is swallowed).
   */
  function RowToRecord(row: seq<string>): Option<Record> {
    if |row| != 3 then None
    else
      match (ParseInt(row[0]), ParseInt(row[2]))
      case (Some(x), Some(y)) => Some(Record(x, row[1], y))
      case _ => None
  }

  /** The records a closed row appends: zero or one. */
  function Emitted(row: seq<string>): seq<Record> {
    match RowToRecord(row)
    case Some(r) => [r]
    case None => []
  }

  /**
   * A closed row yields at most one record, and yields one exactly when it
   * has three cells whose first and third `int()` accepts; the record holds
   * those two integers and the middle cell verbatim.
   */
  lemma EmittedRecord(row: seq<string>)
    ensures |Emitted(row)| <= 1
    ensures |Emitted(row)| == 1 <==>
      |row| == 3 && ParseInt(row[0]).Some? && ParseInt(row[2]).Some?
    ensures |Emitted(row)| == 1 ==>
      Emitted(row)[0] == Record(ParseInt(row[0]).value, row[1], ParseInt(row[2]).value)
  {
  }
}
