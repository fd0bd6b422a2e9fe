# ASCII-art table parser, modelled in Dafny

This is a model of the command-line tool in `main.py`. The tool downloads an
HTML page with a table of `(x, character, y)` rows. It extracts those rows
with an event-driven `TableParser`. It then prints the picture they describe:
`build_canvas_from_rows` lays the sparse coordinates out on a dense grid,
with larger `y` higher up, and joins each grid row into a line.

The project has five modules:

- `Text` (`text.dfy`) covers the two pieces of Python string behaviour the
  parser relies on. The first is `str.strip()` over the characters
  `str.isspace()` accepts. The second is `int()` applied to a cell string,
  with its own set of skipped whitespace and CPython's default limit of
  4300 digits. `None` stands for `ValueError`.
- `Rows` (`rows.dfy`) holds the coordinate record and what a closed table
  row yields.
- `TableParsing` (`table_parser.dfy`) models `TableParser`. The class
  `TableParser` has the parser's four fields (`in_td`, `current_row`,
  `rows`, `data_buffer`). Its three handler methods update those fields in
  place, and `Feed` dispatches a sequence of markup events to them. Each
  handler is proved against the pure transition function `Step`, and
  `Feed` is proved against `Run`, the fold of `Step` over the events. The
  parser's behaviour is then proved as lemmas about `Step` and `Run`:
  - running the event sequence in two parts ends in the same state as
    running it at once;
  - records are only appended;
  - stray text and unknown tags are ignored;
  - a well-formed table yields exactly the records of its valid rows, in
    row order, with or without whitespace between the rows.
- `Canvas` (`canvas.dfy`) models `build_canvas_from_rows`. `BuildCanvas`
  allocates an `array2` of blanks, overwrites it record by record in list
  order (`Paint`), and joins the rows. It is proved equal to the
  specification function `Picture`. Lemmas about `Picture` cover:
  - the grid is the records' bounding box;
  - every record lands inside the grid;
  - the last record at a position wins;
  - unwritten cells are blank;
  - moving every record by the same offsets leaves the output unchanged.
- `Scenarios` (`scenarios.dfy`) restates the repository's unit tests as
  proved facts. The parser tests are fed the events of their markup,
  indentation included. Three further cases are added:
  - a single record;
  - the header table's markup taken all the way to its printed picture;
  - a cell whose text arrives in two fragments.

Behaviour of the code that the model keeps:

- `</td>` does not clear the data buffer. A `</td>` with no `<td>` before
  it therefore appends the previous cell's text again
  (`StrayEndCellRepeatsBuffer`).
- `</tr>` does not clear the current row. A second `</tr>` therefore emits
  the same record again (`RepeatedEndRowReEmits`).
- The glyph is whatever the middle cell held after stripping, including the
  empty string or several characters. The code never checks that it is one
  non-empty character.
- When several records share a position, the one latest in list order is
  shown, because the code writes the records in list order and the last
  write wins.
- Each text fragment of a cell is stripped on its own before it is
  appended. Where the text is split therefore matters. A cell `1 2` that
  arrives whole is kept as `1 2`, which `int()` refuses. The same text in
  the fragments `1 ` and `2` becomes `12`, which `int()` accepts
  (`SplitChangesCell`).

## Model

| member | source | states |
|---|---|---|
| Text.IsSpace | main.py:28 | The characters `str.isspace()` accepts, which `strip()` removes. `Strip` states the result in its terms, and `IntTrimAfterStrip` that it covers every character `int()` skips. |
| Text.Strip | main.py:28 | The result has no whitespace at either end. It is the slice of the input left after cutting a whitespace-only prefix and a whitespace-only suffix. |
| Text.ParseInt | main.py:39-41 | Models `int()` on a cell string. The function has no contract of its own; `ParseIntAccepts`, `OverlongLiteralRejected` and `ParseIntToString` state what it accepts and the value it gives. |
| Text.IntTrim | main.py:39-41 | `int()` skips whitespace at both ends. The result is no longer than the input and has none of that whitespace at either end; `IntTrimSlice` states that what is cut off is that whitespace. |
| Text.IsIntSpace | main.py:39-41 | The whitespace `int()` skips around a literal. `IntTrimSlice` states that `IntTrim` removes exactly runs of it, and `IntTrimAfterStrip` that each such character is one `strip()` removes. |
| Text.IntTrimSlice | main.py:39-41 | What `int()` skips is only whitespace: the input is a whitespace prefix, then the trimmed string, then a whitespace suffix. |
| Text.IntTrimmed | main.py:39-41 | A string with none of that whitespace at its ends is left as it is. |
| Text.ConcatUnpadded | main.py:28-30 | Appending one string without whitespace at its ends to another gives a string without whitespace at its ends. |
| Text.IntTrimAfterStrip | main.py:28-41 | A stripped string has nothing more for `int()` to skip: every character `int()` skips is one `strip()` removes. |
| Text.ParseIntAccepts | main.py:39-41 | `int()` succeeds exactly when the trimmed cell is an optional sign followed by between 1 and 4300 ASCII digits. A negative value only comes from a literal with a minus sign. |
| Text.OverlongLiteralRejected | main.py:39-45 | A run of more than 4300 digits is refused (`ValueError`), so its row is dropped. |
| Text.ParseIntToString | main.py:39-41 | `int()` reads back every integer that `str()` can write, i.e. with at most 4300 digits: `ParseInt(IntToString(n)) == Some(n)`. |
| Text.NatToStringValue | main.py:39-41 | The digits written for a natural number have that number as their decimal value. |
| Rows.RowToRecord | main.py:37-45 | Models the `try` block that turns a closed row's cells into the record dictionary. `None` stands for a row of the wrong length or a `ValueError`. Its contract is stated by `EmittedRecord`. |
| Rows.Emitted | main.py:37-45 | Models what closing a row appends to `rows`: zero or one record. Its contract is stated by `EmittedRecord`. |
| Rows.EmittedRecord | main.py:36-45 | A closed row yields at most one record. It yields one exactly when it has three cells whose first and third parse as integers. That record holds the two integers and the middle cell verbatim; otherwise the `ValueError` is swallowed and nothing is appended. |
| TableParsing.Step | main.py:19-45 | Models the three handlers' combined effect of one event on the four fields. Its properties are stated by `StepRows`, `DataOutsideCell`, `DataInsideCell`, `BlankDataIgnored` and `OtherTagsIgnored`. The handler methods are proved against it. |
| TableParsing.Run | main.py:96-97 | Models the dispatch of every event, in order, that `feed` performs. Its properties are stated by `RunAppend`, `RunRowsGrow`, `RunKeepsRows` and `TableEmits`. `Feed` is proved against it. |
| TableParsing.TableRecords | main.py:36-45 | The row-by-row reference for what a table yields: for each row, the record its cell texts make, if any. `TableEmits` ties it to `Run`. |
| TableParsing.TableParser.constructor | main.py:11-16 | A new parser is outside any cell, with no current row, no records and an empty buffer. |
| TableParsing.TableParser.HandleStartTag | main.py:19-24 | `<td>` sets `in_td` and clears the buffer. `<tr>` clears the current row. Any other tag changes nothing. Records never change. The new state is `Step` of the old one. |
| TableParsing.TableParser.HandleData | main.py:26-30 | Inside a cell the stripped text is appended to the buffer; outside one nothing changes. The new state is `Step` of the old one. |
| TableParsing.TableParser.HandleEndTag | main.py:32-45 | `</td>` leaves the cell and appends the buffer to the row without clearing the buffer. `</tr>` appends the row's record, if any, without clearing the row. Other tags change nothing. The new state is `Step` of the old one. |
| TableParsing.TableParser.Feed | main.py:96-97 | Feeding events dispatches each one in order: the final state is `Run` of the initial state over the events. |
| TableParsing.RunAppend | main.py:96-97 | Running the event sequence in two parts, one after the other, ends in the same state as running it at once. |
| TableParsing.RunRowsGrow | main.py:42 | Records are only ever appended: the earlier list is a prefix of the later one, and each event adds at most one record. |
| TableParsing.StepRows | main.py:32-45 | An event changes the record list only if it is `</tr>`, and then it appends exactly what the current row yields. |
| TableParsing.DataOutsideCell | main.py:26-27 | Text outside a cell changes no field. |
| TableParsing.BlankDataIgnored | main.py:28-30 | Whitespace-only text changes no field, inside a cell or outside one. |
| TableParsing.OtherTagsIgnored | main.py:19-36 | Opening or closing any tag other than `td` and `tr` changes no field. |
| TableParsing.StrayEndCellRepeatsBuffer | main.py:33-35 | Two `</td>` in a row append the current buffer to the row twice. |
| TableParsing.RepeatedEndRowReEmits | main.py:36-42 | Two `</tr>` in a row append the current row's record twice. |
| TableParsing.DataInsideCell | main.py:27-30 | Inside a cell, one text fragment appends its stripped text to the buffer and changes nothing else. |
| TableParsing.DataFragments | main.py:26-30 | Inside a cell, a sequence of text fragments appends the concatenation of their stripped texts to the buffer. |
| TableParsing.CellText | main.py:26-30 | Models the buffer a cell's text fragments build: each fragment stripped, then appended. `DataFragments` states that the buffer grows by it, `CellCollects` that it is what `</td>` appends, and `CellTextUnpadded` that it has no whitespace at either end. |
| TableParsing.CellCollects | main.py:19-35 | A `<td>` … `</td>` cell appends exactly one string to the current row: the concatenation of its stripped fragments. It ends outside a cell and leaves the records alone. |
| TableParsing.CellsCollect | main.py:19-35 | A run of cells appends their texts to the current row in order. |
| TableParsing.RowEmits | main.py:19-45 | A `<tr>` row of cells appends one record when its cell texts make one and nothing otherwise. The row's cell texts stay in `current_row`. |
| TableParsing.TableEmits | main.py:19-45 | A table yields one record for each row whose cell texts make one, in row order. Malformed and header rows add nothing and do not disturb later rows. |
| TableParsing.CellTextUnpadded | main.py:28-35 | A cell's text, the concatenation of its stripped fragments, has no whitespace at either end. |
| TableParsing.CellTextIntTrimmed | main.py:28-41 | `int()` finds nothing to skip in a cell's text, so it reads the cell exactly as the parser built it. |
| TableParsing.RunKeepsRows | main.py:32-45 | A run of events without `</tr>` leaves the records as they are. |
| TableParsing.SpacedTableEmits | main.py:19-45 | With whitespace text before every row, a table still yields exactly the records of `TableRecords`, in row order. |
| Canvas.Min | main.py:71-72 | `min()` of a non-empty list is no larger than any element. |
| Canvas.Max | main.py:71-72 | `max()` of a non-empty list is no smaller than any element. |
| Canvas.MinMaxAttained | main.py:71-72 | The minimum and the maximum are elements of the list. |
| Canvas.Xs | main.py:68 | Models the list of the records' `x` values. `Width`, `Col` and `RecordInBounds` are stated over its minimum and maximum. |
| Canvas.Ys | main.py:69 | Models the list of the records' `y` values. `Height`, `CanvasRow` and `RecordInBounds` are stated over its minimum and maximum. |
| Canvas.Width | main.py:74 | The grid has at least one column. |
| Canvas.Height | main.py:75 | The grid has at least one line. |
| Canvas.LastWrite | main.py:77-87 | Models what a cell holds after the loop writes the records in list order over a blank. Its contract is stated by `LastWriteSnoc`, `LastWriteWins`, `LastWriteBlank` and `LastWriteIsGlyphOrBlank`. |
| Canvas.LastWriteSnoc | main.py:79-87 | Writing one more record changes only the cell at its own coordinates. |
| Canvas.LastWriteWins | main.py:79-87 | The cell shows the glyph of the last record in list order at its coordinates. |
| Canvas.LastWriteBlank | main.py:77 | A position no record maps to keeps its initial blank. |
| Canvas.LastWriteIsGlyphOrBlank | main.py:77-87 | Every cell holds a blank or the glyph of some record. |
| Canvas.Frame | main.py:77-87 | The `height` by `width` grid over a bounding box, with line `i` holding `y = y0 + height - 1 - i`. Its cells are stated by `FrameAt`. |
| Canvas.FrameAt | main.py:84-87 | Frame line `i`, column `j` holds what was last written at `x0 + j`, `y0 + height - 1 - i`, and the frame has `height` lines of `width` cells. |
| Canvas.Grid | main.py:68-87 | Models the filled `canvas` list: no lines for no records, otherwise the frame over the records' bounding box. Its contract is stated by `GridIsFrame` and `GridAt`. |
| Canvas.GridIsFrame | main.py:71-77 | For records present, the grid is the frame whose corner is `(x_min, y_min)` and whose size is `width` by `height`. |
| Canvas.GridAt | main.py:84-87 | Line `i`, column `j` of the grid holds what was last written at `x = x_min + j`, `y = y_min + height - 1 - i`. The grid is `height` lines of `width` cells. |
| Canvas.Join | main.py:89 | Models `"".join(line)`. Its contract is stated by `JoinSingleGlyphs`. |
| Canvas.Picture | main.py:64-89 | Models the return value of `build_canvas_from_rows`: the joined lines of the grid. `BuildCanvas` is proved equal to it, and its properties are stated by `CanvasShape`, `LastRecordWins`, `UnwrittenCellIsBlank`, `SingleGlyphLines` and `TranslationInvariant`. |
| Canvas.Lines | main.py:89 | There is one output line per grid row. |
| Canvas.BuildCanvas | main.py:64-89 | The returned lines are `Picture(rows)`. There are none for no records, and otherwise one per `y` in the bounding box. |
| Canvas.Paint | main.py:79-87 | After the loop, every cell of the buffer holds what the records last wrote there, in list order. |
| Canvas.ContentsIsFrame | main.py:77-87 | A buffer whose every cell matches the frame has the frame as its contents. |
| Canvas.Col | main.py:84 | Models `col = x - x_min`. `RecordInBounds` states that every record's column lies in `0 .. width - 1`. |
| Canvas.CanvasRow | main.py:85-86 | Models `canvas_row = height - 1 - (y - y_min)`. `RecordInBounds` states that every record's row lies in `0 .. height - 1`, and `GridAt` that larger `y` is higher up. |
| Canvas.RecordInBounds | main.py:84-87 | Every record's column and flipped row lie inside the grid. The cell there shows what was last written at the record's coordinates. |
| Canvas.LastRecordWins | main.py:79-87 | When records collide, the one latest in list order is the one shown. |
| Canvas.UnwrittenCellIsBlank | main.py:77 | A grid cell no record maps to is a blank. |
| Canvas.CanvasShape | main.py:71-77 | The output has `y_max - y_min + 1` lines. Each joins one cell per column. |
| Canvas.JoinSingleGlyphs | main.py:89 | Joining one-character cells gives a line of that many characters, character `j` being cell `j`. |
| Canvas.SingleGlyphLines | main.py:77-89 | With one-character glyphs, each line is exactly `width` characters long, and character `j` is the glyph or blank in column `j`. |
| Canvas.MinMaxShift | main.py:71-72 | Adding `d` to every element adds `d` to the minimum and to the maximum. |
| Canvas.LastWriteShift | main.py:79-87 | Moving the records and the queried cell by the same offsets gives the same cell contents. |
| Canvas.ShiftBounds | main.py:71-75 | Moving every record moves the bounding box by the same offsets and keeps its width and height. |
| Canvas.FrameShift | main.py:77-87 | Moving the records and the frame by the same offsets leaves the grid unchanged. |
| Canvas.TranslationInvariant | main.py:64-89 | Moving every record by the same offsets leaves the printed lines unchanged; only relative positions matter. |
| Scenarios.WrappedEmits | main.py:19-45 | The indentation before, between and after the rows and the `<table>` tags add no records. |
| Scenarios.SplitChangesCell | main.py:26-41 | For digits `a` and `b`, the single fragment `a b` gives the cell `a b`, which `int()` refuses. The fragments `a ` and `b` give the cell `ab`, which `int()` reads as `10a + b`. |
| Scenarios.SpacedDigitsRejected | main.py:26-41 | A one-fragment cell `a b` keeps its inner space and is refused by `int()`. |
| Scenarios.SplitDropsSpace | main.py:26-30 | The fragments `a ` and `b` build the cell `ab`. |
| Scenarios.TwoDigits | main.py:39-41 | Two ASCII digits parse as their decimal value. |
| Scenarios.Row3Texts | main.py:26-35 | A row of three one-fragment cells collects the three stripped fragments. |
| Scenarios.ParseDigit | main.py:39-41 | A single ASCII digit parses as its value. |
| Scenarios.DigitRowEmits | main.py:36-42 | A row of a digit, an unpadded glyph and a digit yields exactly its record. |
| Scenarios.WordRowSkipped | main.py:43-45 | A row whose first cell is a word, not an integer, yields nothing. |
| Scenarios.WordRejected | main.py:39 | A trimmed word starting with neither a digit nor a sign is rejected by `int()`. |
| Scenarios.ThreeGoodRows | test.py:34-47 | Three rows of a digit, an unpadded glyph and a digit yield three records, in row order. |
| Scenarios.BasicTableRecords | test.py:34-47 | The basic test table's rows make exactly the records `(0,█,0)`, `(1,▀,1)`, `(2,░,0)`. |
| Scenarios.ParseBasicTable | test.py:34-47 | Feeding the basic test's markup events, indentation included, to a new parser leaves exactly those three records, in row order. |
| Scenarios.GoodRowBetweenWords | test.py:49-60 | A good row between a header row and a row with a non-integer `x` is the only record. |
| Scenarios.HeaderTableRecords | test.py:49-60 | The header test table's rows make exactly the record `(0,A,0)`. |
| Scenarios.ParseHeaderTable | test.py:49-60 | Feeding the header test's markup events, indentation included, to a new parser leaves exactly the record `(0,A,0)`. |
| Scenarios.LastWrite3 | main.py:79-87 | With three records, a cell shows the last of them written there, or a blank. |
| Scenarios.ThreeRecordPicture | test.py:64-80 | Three records in an L shape print as two lines: the top one with a trailing blank, the bottom one with two glyphs. |
| Scenarios.SimpleCanvas | test.py:64-71 | The simple canvas test prints `["C ", "AB"]`. |
| Scenarios.NegativeCanvas | test.py:73-80 | The negative-coordinates test prints `["z ", "xy"]`. |
| Scenarios.EmptyCanvas | test.py:82-83 | No records print no lines. |
| Scenarios.OneRecordPicture | main.py:64-89 | A single record prints as one line holding its glyph, wherever it sits. |
| Scenarios.SingleCanvas | main.py:64-89 | A single `Z` at the origin prints `["Z"]`. |
| Scenarios.HeaderTableToCanvas | main.py:96-103 | The header test table, parsed and then drawn, prints `["A"]`. |

## Left out

- `fetch_html`, `parse_args` and `main` are left out, along with the fetch tests in `test.py`. They do network I/O through `requests`, argument parsing, printing to stderr and `sys.exit`. The model starts from the markup events.
- HTML tokenisation by `HTMLParser` is left out: tag-name lowercasing, attributes, character references, comments, and where a text run is split into several `handle_data` calls. The model takes the event sequence as input. `DataFragments` shows that the buffer is the concatenation of the fragments, each stripped separately. The split can therefore change a cell: `1 2` whole stays `1 2`, but the fragments `1 ` and `2` give `12` (`SplitChangesCell`).
- Markup chunking is not covered. Calling `feed()` on the markup in several chunks can split a text run at a chunk boundary, because `HTMLParser` reports pending text at the end of a chunk. `RunAppend` is about the event sequence, not the markup.
- Text.ParseInt: `int()` also accepts underscores between digits and non-ASCII decimal digits. The model accepts only an optional sign and ASCII digits.
- Text.ParseInt: the 4300-digit limit is CPython's default since 3.11 (and in the 3.7 to 3.10 security releases). It counts every digit, leading zeros included. Older interpreters have no limit, and the limit can be changed at run time. Neither is modelled.
- Records are a datatype with fields `x`, `glyph` and `y` instead of a dictionary with keys `"x"`, `"char"` and `"y"`. Dictionaries with missing keys or non-integer coordinates cannot occur here, because the parser only builds well-formed ones.
- The canvas is an `array2<string>` rather than a list of lists. Glyphs wider than one character are stored and joined as the code does. Their display width on a terminal is not modelled.
