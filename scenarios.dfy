/**
 * The repository's own unit tests, stated as facts about the model: the two
 * parser tables and the three canvases.
 */
module Scenarios {
  import opened Text
  import opened Rows
  import opened TableParsing
  import opened Canvas

  /** The indentation of the `<table>` tags in the test markup. */
  const Indent := "\n        "

  /** The indentation of each `<tr>` in the test markup. */
  const RowIndent := "\n          "

  /**
   * The events of a table written as the tests write it: each tag on its
   * own indented line, each row on one line with no space inside it.
   */
  function Wrapped(table: seq<seq<seq<string>>>): seq<Event> {
    [Data(Indent), StartTag("table")] + SpacedTableEvents(table, RowIndent) +
    [Data(Indent), EndTag("table"), Data(Indent)]
  }

  lemma RowIndentBlank()
    ensures forall k :: 0 <= k < |RowIndent| ==> IsSpace(RowIndent[k])
  {
  }

  /** The indentation and the `<table>` tags add no records. */
  lemma WrappedEmits(table: seq<seq<seq<string>>>)
    ensures Run(Initial, Wrapped(table)).rows == TableRecords(table)
  {
    var pre := [Data(Indent), StartTag("table")];
    var body := SpacedTableEvents(table, RowIndent);
    var post := [Data(Indent), EndTag("table"), Data(Indent)];
    assert Wrapped(table) == pre + body + post;
    RunKeepsRows(Initial, pre);
    var start := Run(Initial, pre);
    RunAppend(Initial, pre, body);
    RowIndentBlank();
    SpacedTableEmits(start, table, RowIndent);
    var mid := Run(Initial, pre + body);
    RunAppend(Initial, pre + body, post);
    RunKeepsRows(mid, post);
  }

  /** A row of one-fragment cells. */
  function Row3(a: string, b: string, c: string): seq<seq<string>> {
    [[a], [b], [c]]
  }

  /** A one-fragment cell's text is the fragment, stripped. */
  lemma OneFragment(a: string)
    ensures CellText([a]) == Strip(a)
  {
    assert [a][..0] == [];
  }

  lemma CellTextsSnoc(cells: seq<seq<string>>, cell: seq<string>)
    ensures CellTexts(cells + [cell]) == CellTexts(cells) + [CellText(cell)]
  {
    assert (cells + [cell])[..|cells|] == cells;
  }

  lemma Row3Cells(a: string, b: string, c: string)
    ensures CellTexts(Row3(a, b, c)) == [CellText([a]), CellText([b]), CellText([c])]
  {
    var r0: seq<seq<string>> := [];
    var r1 := r0 + [[a]];
    var r2 := r1 + [[b]];
    var r3 := r2 + [[c]];
    assert Row3(a, b, c) == r3;
    CellTextsSnoc(r0, [a]);
    assert CellTexts(r1) == [CellText([a])];
    CellTextsSnoc(r1, [b]);
    assert CellTexts(r2) == [CellText([a]), CellText([b])];
    CellTextsSnoc(r2, [c]);
    assert CellTexts(r3) == [CellText([a]), CellText([b]), CellText([c])];
  }

  lemma Row3Texts(a: string, b: string, c: string)
    ensures CellTexts(Row3(a, b, c)) == [Strip(a), Strip(b), Strip(c)]
  {
    Row3Cells(a, b, c);
    OneFragment(a);
    OneFragment(b);
    OneFragment(c);
  }

  /**
   * Where a cell's text is split into fragments matters: each fragment is
   * stripped on its own, so a split beside inner whitespace drops it, and
   * a cell `int()` refuses can become one it accepts.
   */
  lemma SplitChangesCell(a: char, b: char)
    requires IsDigit(a) && IsDigit(b)
    ensures CellText([[a, ' ', b]]) == [a, ' ', b] && ParseInt([a, ' ', b]) == None
    ensures CellText([[a, ' '], [b]]) == [a, b] &&
      ParseInt([a, b]) == Some(10 * (a as int - '0' as int) + (b as int - '0' as int))
  {
    SpacedDigitsRejected(a, b);
    SplitDropsSpace(a, b);
    TwoDigits(a, b);
  }

  lemma SpacedDigitsRejected(a: char, b: char)
    requires IsDigit(a) && IsDigit(b)
    ensures CellText([[a, ' ', b]]) == [a, ' ', b] && ParseInt([a, ' ', b]) == None
  {
    var whole := [a, ' ', b];
    assert CellText([whole]) == whole by {
      OneFragment(whole);
      StripTrimmed(whole);
    }
    assert ParseInt(whole) == None by {
      IntTrimmed(whole);
      assert whole[1] == ' ' && !AllDigits(whole);
    }
  }

  lemma SplitDropsSpace(a: char, b: char)
    requires IsDigit(a) && IsDigit(b)
    ensures CellText([[a, ' '], [b]]) == [a, b]
  {
    var left := [a, ' '];
    var two := [left, [b]];
    assert two[..1] == [left];
    OneFragment(left);
    assert Strip(left) == [a] by {
      assert LeadingSpaces(left) == 0;
      assert left[0..1] == [a];
    }
    StripTrimmed([b]);
    assert CellText(two) == [a] + [b];
  }

  /** Two ASCII digits read as their decimal value. */
  lemma TwoDigits(a: char, b: char)
    requires IsDigit(a) && IsDigit(b)
    ensures ParseInt([a, b]) == Some(10 * (a as int - '0' as int) + (b as int - '0' as int))
  {
    var digits := [a, b];
    IntTrimmed(digits);
    assert digits[..1] == [a] && [a][..0] == [];
    assert DigitsValue([a]) == a as int - '0' as int;
    assert DigitsValue(digits) == 10 * DigitsValue([a]) + (b as int - '0' as int);
    assert AllDigits(digits) && digits[0] != '+' && digits[0] != '-';
  }

  /** A single ASCII digit reads as its value. */
  lemma ParseDigit(c: char)
    requires IsDigit(c)
    ensures ParseInt([c]) == Some(c as int - '0' as int)
  {
    IntTrimmed([c]);
    assert [c][..0] == [];
    assert DigitsValue([c]) == c as int - '0' as int;
  }

  /** A row of a digit, an unpadded glyph and a digit yields exactly its record. */
  lemma DigitRowEmits(x: char, glyph: string, y: char)
    requires IsDigit(x) && IsDigit(y) && Strip(glyph) == glyph
    ensures Emitted(CellTexts(Row3([x], glyph, [y]))) ==
      [Record(x as int - '0' as int, glyph, y as int - '0' as int)]
  {
    Row3Texts([x], glyph, [y]);
    StripTrimmed([x]);
    StripTrimmed([y]);
    DigitsRecord(x, glyph, y);
  }

  lemma DigitsRecord(x: char, glyph: string, y: char)
    requires IsDigit(x) && IsDigit(y)
    ensures Emitted([[x], glyph, [y]]) == [Record(x as int - '0' as int, glyph, y as int - '0' as int)]
  {
    ParseDigit(x);
    ParseDigit(y);
  }

  /** A row whose first cell is not an integer yields nothing. */
  lemma WordRowSkipped(x: string, glyph: string, y: string)
    requires x != [] && !IsSpace(x[0]) && !IsSpace(x[|x| - 1]) && !IsDigit(x[0])
    requires x[0] != '+' && x[0] != '-'
    ensures Emitted(CellTexts(Row3(x, glyph, y))) == []
  {
    Row3Texts(x, glyph, y);
    WordRejected(x);
    var texts := CellTexts(Row3(x, glyph, y));
    assert texts[0] == x;
    assert RowToRecord(texts) == None;
  }

  /** A trimmed word that starts with neither a digit nor a sign is not an integer. */
  lemma WordRejected(x: string)
    requires x != [] && !IsSpace(x[0]) && !IsSpace(x[|x| - 1]) && !IsDigit(x[0])
    requires x[0] != '+' && x[0] != '-'
    ensures Strip(x) == x && ParseInt(x) == None
  {
    StripTrimmed(x);
    IntTrimAfterStrip(x);
    assert !AllDigits(x);
  }

  lemma TableRecords3(table: seq<seq<seq<string>>>)
    requires |table| == 3
    ensures TableRecords(table) ==
      Emitted(CellTexts(table[0])) + Emitted(CellTexts(table[1])) + Emitted(CellTexts(table[2]))
  {
    var t1, t2 := table[..1], table[..2];
    assert t1[..0] == [] && t2[..1] == t1;
    assert TableRecords(t1) == Emitted(CellTexts(table[0]));
    assert TableRecords(t2) == TableRecords(t1) + Emitted(CellTexts(table[1]));
    assert table[..3] == table;
  }

  /** Concatenations of singletons, proved apart from the larger scenario proofs. */
  lemma Singletons<T>(a: T, b: T, c: T)
    ensures [a] + [b] + [c] == [a, b, c]
    ensures [] + [a] + [] == [a]
  {
  }

  /** The table of the basic parsing test: three well-formed rows. */
  function BasicTable(): seq<seq<seq<string>>> {
    [Row3("0", "█", "0"), Row3("1", "▀", "1"), Row3("2", "░", "0")]
  }

  /** Three well-formed rows yield three records, in row order. */
  method ParseBasicTable() returns (rows: seq<Record>)
    ensures rows == [Record(0, "█", 0), Record(1, "▀", 1), Record(2, "░", 0)]
  {
    var parser := new TableParser();
    parser.Feed(Wrapped(BasicTable()));
    WrappedEmits(BasicTable());
    BasicTableRecords();
    rows := parser.rows;
  }

  lemma BasicTableRecords()
    ensures TableRecords(BasicTable()) == [Record(0, "█", 0), Record(1, "▀", 1), Record(2, "░", 0)]
  {
    assert Strip("█") == "█" by { StripTrimmed("█"); }
    assert Strip("▀") == "▀" by { StripTrimmed("▀"); }
    assert Strip("░") == "░" by { StripTrimmed("░"); }
    ThreeGoodRows(BasicTable(), '0', "█", '0', '1', "▀", '1', '2', "░", '0');
  }

  /** Three rows of a digit, an unpadded glyph and a digit yield three records, in order. */
  lemma ThreeGoodRows(table: seq<seq<seq<string>>>,
                      x0: char, g0: string, y0: char,
                      x1: char, g1: string, y1: char,
                      x2: char, g2: string, y2: char)
    requires table == [Row3([x0], g0, [y0]), Row3([x1], g1, [y1]), Row3([x2], g2, [y2])]
    requires IsDigit(x0) && IsDigit(y0) && Strip(g0) == g0
    requires IsDigit(x1) && IsDigit(y1) && Strip(g1) == g1
    requires IsDigit(x2) && IsDigit(y2) && Strip(g2) == g2
    ensures TableRecords(table) == [
      Record(x0 as int - '0' as int, g0, y0 as int - '0' as int),
      Record(x1 as int - '0' as int, g1, y1 as int - '0' as int),
      Record(x2 as int - '0' as int, g2, y2 as int - '0' as int)]
  {
    DigitRowEmits(x0, g0, y0);
    DigitRowEmits(x1, g1, y1);
    DigitRowEmits(x2, g2, y2);
    TableRecords3(table);
    Singletons(
      Record(x0 as int - '0' as int, g0, y0 as int - '0' as int),
      Record(x1 as int - '0' as int, g1, y1 as int - '0' as int),
      Record(x2 as int - '0' as int, g2, y2 as int - '0' as int));
  }

  /** The table of the header test: a header row, a good row and a row with a bad x. */
  function HeaderTable(): seq<seq<seq<string>>> {
    [Row3("x", "char", "y"), Row3("0", "A", "0"), Row3("bad", "B", "2")]
  }

  /** The header row and the row with a non-integer x are skipped; the good row survives. */
  method ParseHeaderTable() returns (rows: seq<Record>)
    ensures rows == [Record(0, "A", 0)]
  {
    var parser := new TableParser();
    parser.Feed(Wrapped(HeaderTable()));
    WrappedEmits(HeaderTable());
    HeaderTableRecords();
    rows := parser.rows;
  }

  lemma HeaderTableRecords()
    ensures TableRecords(HeaderTable()) == [Record(0, "A", 0)]
  {
    StripTrimmed("A");
    GoodRowBetweenWords(HeaderTable(), "x", "char", "y", '0', "A", '0', "bad", "B", "2");
  }

  /**
   * A good row between two rows whose first cell is a word: only the good
   * row's record comes out.
   */
  lemma GoodRowBetweenWords(table: seq<seq<seq<string>>>,
                            a0: string, b0: string, c0: string,
                            x: char, g: string, y: char,
                            a2: string, b2: string, c2: string)
    requires table == [Row3(a0, b0, c0), Row3([x], g, [y]), Row3(a2, b2, c2)]
    requires a0 != [] && !IsSpace(a0[0]) && !IsSpace(a0[|a0| - 1]) && !IsDigit(a0[0])
    requires a0[0] != '+' && a0[0] != '-'
    requires a2 != [] && !IsSpace(a2[0]) && !IsSpace(a2[|a2| - 1]) && !IsDigit(a2[0])
    requires a2[0] != '+' && a2[0] != '-'
    requires IsDigit(x) && IsDigit(y) && Strip(g) == g
    ensures TableRecords(table) == [Record(x as int - '0' as int, g, y as int - '0' as int)]
  {
    WordRowSkipped(a0, b0, c0);
    DigitRowEmits(x, g, y);
    WordRowSkipped(a2, b2, c2);
    TableRecords3(table);
    var r := Record(x as int - '0' as int, g, y as int - '0' as int);
    Singletons(r, r, r);
  }

  /** Three records, later ones written over earlier ones at the same cell. */
  lemma LastWrite3(rows: seq<Record>, x: int, y: int)
    requires |rows| == 3
    ensures LastWrite(rows, x, y) ==
      if At(rows[2], x, y) then rows[2].glyph
      else if At(rows[1], x, y) then rows[1].glyph
      else if At(rows[0], x, y) then rows[0].glyph
      else " "
  {
    var r1, r2 := rows[..1], rows[..2];
    assert r1[..0] == [] && r2[..1] == r1 && r2[1] == rows[1] && r1[0] == rows[0];
    assert LastWrite(r1, x, y) == if At(rows[0], x, y) then rows[0].glyph else LastWrite([], x, y);
    assert LastWrite(r2, x, y) == if At(rows[1], x, y) then rows[1].glyph else LastWrite(r1, x, y);
  }

  /**
   * Three records at (x0, y0), (x0 + 1, y0) and (x0, y0 + 1), the shape of
   * both canvas tests: two lines, the third glyph above the first.
   */
  lemma ThreeRecordPicture(rows: seq<Record>, x0: int, y0: int)
    requires |rows| == 3
    requires rows[0].x == x0 && rows[1].x == x0 + 1 && rows[2].x == x0
    requires rows[0].y == y0 && rows[1].y == y0 && rows[2].y == y0 + 1
    ensures Picture(rows) == [rows[2].glyph + " ", rows[0].glyph + rows[1].glyph]
  {
    var xs, ys := Xs(rows), Ys(rows);
    assert xs == [x0, x0 + 1, x0] && ys == [y0, y0, y0 + 1];
    MinMaxAttained(xs);
    MinMaxAttained(ys);
    assert Min(xs) == x0 && Max(xs) == x0 + 1 && Min(ys) == y0 && Max(ys) == y0 + 1;
    GridIsFrame(rows, x0, y0, 2, 2);
    var g := Frame(rows, x0, y0, 2, 2);
    FrameAt(rows, x0, y0, 2, 2, 0, 0);
    FrameAt(rows, x0, y0, 2, 2, 0, 1);
    FrameAt(rows, x0, y0, 2, 2, 1, 0);
    FrameAt(rows, x0, y0, 2, 2, 1, 1);
    LastWrite3(rows, x0, y0 + 1);
    LastWrite3(rows, x0 + 1, y0 + 1);
    LastWrite3(rows, x0, y0);
    LastWrite3(rows, x0 + 1, y0);
    var top, bottom := [rows[2].glyph, " "], [rows[0].glyph, rows[1].glyph];
    assert g[0] == top && g[1] == bottom;
    JoinTwo(top);
    JoinTwo(bottom);
    assert Lines(g) == [Join(g[0]), Join(g[1])];
  }

  lemma JoinTwo(cells: seq<string>)
    requires |cells| == 2
    ensures Join(cells) == cells[0] + cells[1]
  {
    var first := cells[..1];
    assert first[..0] == [] && first[0] == cells[0];
    assert Join(first) == Join([]) + cells[0];
  }

  /** The simple canvas test: A and B on the bottom line, C above A. */
  method SimpleCanvas() returns (lines: seq<string>)
    ensures lines == ["C ", "AB"]
  {
    var rows := [Record(0, "A", 0), Record(1, "B", 0), Record(0, "C", 1)];
    lines := BuildCanvas(rows);
    ThreeRecordPicture(rows, 0, 0);
    assert "C" + " " == "C " && "A" + "B" == "AB";
  }

  /** The negative-coordinates test: the same picture one step down and to the left. */
  method NegativeCanvas() returns (lines: seq<string>)
    ensures lines == ["z ", "xy"]
  {
    var rows := [Record(-1, "x", -1), Record(0, "y", -1), Record(-1, "z", 0)];
    lines := BuildCanvas(rows);
    ThreeRecordPicture(rows, -1, -1);
    assert "z" + " " == "z " && "x" + "y" == "xy";
  }

  /** A single record prints as a single one-cell line, wherever it sits. */
  lemma OneRecordPicture(r: Record)
    ensures Picture([r]) == [r.glyph]
  {
    var rows := [r];
    var xs, ys := Xs(rows), Ys(rows);
    assert xs == [r.x] && ys == [r.y];
    GridIsFrame(rows, r.x, r.y, 1, 1);
    FrameAt(rows, r.x, r.y, 1, 1, 0, 0);
    var g := Frame(rows, r.x, r.y, 1, 1);
    assert LastWrite(rows, r.x, r.y) == r.glyph;
    assert g[0] == [r.glyph];
    assert g == [[r.glyph]];
    assert [r.glyph][..0] == [];
    assert Join([r.glyph]) == r.glyph;
  }

  /** The single-record case: `Z` at the origin. */
  method SingleCanvas() returns (lines: seq<string>)
    ensures lines == ["Z"]
  {
    var r := Record(0, "Z", 0);
    lines := BuildCanvas([r]);
    OneRecordPicture(r);
  }

  /** From the header table's markup to its picture: one record, one line `A`. */
  method HeaderTableToCanvas() returns (lines: seq<string>)
    ensures lines == ["A"]
  {
    var rows := ParseHeaderTable();
    lines := BuildCanvas(rows);
    OneRecordPicture(Record(0, "A", 0));
  }

  /** No records, no lines. */
  method EmptyCanvas() returns (lines: seq<string>)
    ensures lines == []
  {
    lines := BuildCanvas([]);
  }
}
