/**
 * `build_canvas_from_rows`: lays sparse integer coordinates onto a dense
 * grid, larger y higher up, and returns the grid's rows as lines of text.
 */
module Canvas {
  import opened Rows

  function Xs(rows: seq<Record>): seq<int> {
    seq(|rows|, k requires 0 <= k < |rows| => rows[k].x)
  }

  function Ys(rows: seq<Record>): seq<int> {
    seq(|rows|, k requires 0 <= k < |rows| => rows[k].y)
  }

  /** Python's `min()` of a non-empty list. */
  function Min(s: seq<int>): (m: int)
    requires |s| > 0
    ensures forall k :: 0 <= k < |s| ==> m <= s[k]
  {
    if |s| == 1 then s[0]
    else
      var m := Min(s[..|s| - 1]);
      if s[|s| - 1] < m then s[|s| - 1] else m
  }

  /** Python's `max()` of a non-empty list. */
  function Max(s: seq<int>): (m: int)
    requires |s| > 0
    ensures forall k :: 0 <= k < |s| ==> s[k] <= m
  {
    if |s| == 1 then s[0]
    else
      var m := Max(s[..|s| - 1]);
      if s[|s| - 1] > m then s[|s| - 1] else m
  }

  /** The minimum and the maximum are elements of the list. */
  lemma {:induction false} MinMaxAttained(s: seq<int>)
    requires |s| > 0
    ensures exists k :: 0 <= k < |s| && s[k] == Min(s)
    ensures exists k :: 0 <= k < |s| && s[k] == Max(s)
  {
    if |s| > 1 {
      var init := s[..|s| - 1];
      MinMaxAttained(init);
      var a :| 0 <= a < |init| && init[a] == Min(init);
      var b :| 0 <= b < |init| && init[b] == Max(init);
      assert s[a] == init[a] && s[b] == init[b];
      assert Min(s) == s[a] || Min(s) == s[|s| - 1];
      assert Max(s) == s[b] || Max(s) == s[|s| - 1];
    } else {
      assert s[0] == Min(s) == Max(s);
    }
  }

  /** Number of columns: the span of the x coordinates. */
  function Width(rows: seq<Record>): (w: nat)
    requires rows != []
    ensures w >= 1
  {
    var xs := Xs(rows);
    assert Min(xs) <= xs[0] <= Max(xs);
    Max(xs) - Min(xs) + 1
  }

  /** Number of lines: the span of the y coordinates. */
  function Height(rows: seq<Record>): (h: nat)
    requires rows != []
    ensures h >= 1
  {
    var ys := Ys(rows);
    assert Min(ys) <= ys[0] <= Max(ys);
    Max(ys) - Min(ys) + 1
  }

  /** The grid column of x. */
  function Col(rows: seq<Record>, x: int): int
    requires rows != []
  {
    x - Min(Xs(rows))
  }

  /** The grid row of y: the largest y goes to row 0. */
  function CanvasRow(rows: seq<Record>, y: int): int
    requires rows != []
  {
    Height(rows) - 1 - (y - Min(Ys(rows)))
  }

  predicate At(r: Record, x: int, y: int) {
    r.x == x && r.y == y
  }

  /** Record k is at (x, y) and no record after it is. */
  predicate LastAt(rows: seq<Record>, k: int, x: int, y: int) {
    0 <= k < |rows| && At(rows[k], x, y) &&
    forall m :: k < m < |rows| ==> !At(rows[m], x, y)
  }

  /**
   * What a cell for (x, y) holds after the records are written in list
   * order, each overwriting the one before.
   */
  function LastWrite(rows: seq<Record>, x: int, y: int): string {
    if rows == [] then " "
    else if At(rows[|rows| - 1], x, y) then rows[|rows| - 1].glyph
    else LastWrite(rows[..|rows| - 1], x, y)
  }

  /** Writing one more record changes only the cell at its own coordinates. */
  lemma LastWriteSnoc(rows: seq<Record>, r: Record, x: int, y: int)
    ensures LastWrite(rows + [r], x, y) == if At(r, x, y) then r.glyph else LastWrite(rows, x, y)
  {
    assert (rows + [r])[..|rows|] == rows;
  }

  /** The cell shows the glyph of the last record at its coordinates. */
  lemma {:induction false} LastWriteWins(rows: seq<Record>, k: int, x: int, y: int)
    requires LastAt(rows, k, x, y)
    ensures LastWrite(rows, x, y) == rows[k].glyph
  {
    var n := |rows|;
    if k < n - 1 {
      assert !At(rows[n - 1], x, y);
      assert LastAt(rows[..n - 1], k, x, y);
      LastWriteWins(rows[..n - 1], k, x, y);
    }
  }

  /** A cell no record maps to stays blank. */
  lemma {:induction false} LastWriteBlank(rows: seq<Record>, x: int, y: int)
    requires forall k :: 0 <= k < |rows| ==> !At(rows[k], x, y)
    ensures LastWrite(rows, x, y) == " "
  {
    if rows != [] {
      var n := |rows|;
      assert !At(rows[n - 1], x, y);
      LastWriteBlank(rows[..n - 1], x, y);
    }
  }

  /**
   * The h-by-w grid whose bottom-left cell is (x0, y0): line i holds
   * y = y0 + h - 1 - i, column j holds x = x0 + j.
   */
  function Frame(rows: seq<Record>, x0: int, y0: int, w: nat, h: nat): seq<seq<string>> {
    seq(h, i requires 0 <= i < h =>
      seq(w, j requires 0 <= j < w => LastWrite(rows, x0 + j, y0 + (h - 1 - i))))
  }

  lemma FrameAt(rows: seq<Record>, x0: int, y0: int, w: nat, h: nat, i: int, j: int)
    requires 0 <= i < h && 0 <= j < w
    ensures |Frame(rows, x0, y0, w, h)| == h && |Frame(rows, x0, y0, w, h)[i]| == w
    ensures Frame(rows, x0, y0, w, h)[i][j] == LastWrite(rows, x0 + j, y0 + (h - 1 - i))
  {
  }

  /** The grid once every record is written: its frame is the records' bounding box. */
  function Grid(rows: seq<Record>): seq<seq<string>> {
    if rows == [] then [] else Frame(rows, Min(Xs(rows)), Min(Ys(rows)), Width(rows), Height(rows))
  }

  lemma GridIsFrame(rows: seq<Record>, x0: int, y0: int, w: nat, h: nat)
    requires rows != [] && x0 == Min(Xs(rows)) && y0 == Min(Ys(rows))
    requires w == Width(rows) && h == Height(rows)
    ensures Grid(rows) == Frame(rows, x0, y0, w, h)
  {
  }

  /** Line i, column j of the grid holds what was last written at (x, y). */
  lemma GridAt(rows: seq<Record>, i: int, j: int, x: int, y: int)
    requires rows != [] && 0 <= i < Height(rows) && 0 <= j < Width(rows)
    requires x == Min(Xs(rows)) + j && y == Min(Ys(rows)) + (Height(rows) - 1 - i)
    ensures |Grid(rows)| == Height(rows) && |Grid(rows)[i]| == Width(rows)
    ensures Grid(rows)[i][j] == LastWrite(rows, x, y)
  {
    var x0, y0, w, h := Min(Xs(rows)), Min(Ys(rows)), Width(rows), Height(rows);
    GridIsFrame(rows, x0, y0, w, h);
    FrameAt(rows, x0, y0, w, h, i, j);
  }

  /** `"".join(cells)`. */
  function Join(cells: seq<string>): string {
    if cells == [] then "" else Join(cells[..|cells| - 1]) + cells[|cells| - 1]
  }

  /** `["".join(line) for line in canvas]`. */
  function Lines(grid: seq<seq<string>>): (lines: seq<string>)
    ensures |lines| == |grid|
  {
    seq(|grid|, i requires 0 <= i < |grid| => Join(grid[i]))
  }

  /** The lines `build_canvas_from_rows` returns for `rows`. */
  function Picture(rows: seq<Record>): seq<string> {
    Lines(Grid(rows))
  }

  /** The rows of a two-dimensional buffer, each as the list of its cells. */
  function Contents(a: array2<string>): (g: seq<seq<string>>)
    reads a
    ensures |g| == a.Length0
    ensures forall i :: 0 <= i < a.Length0 ==> |g[i]| == a.Length1
    ensures forall i, j :: 0 <= i < a.Length0 && 0 <= j < a.Length1 ==> g[i][j] == a[i, j]
  {
    seq(a.Length0, i requires 0 <= i < a.Length0 reads a =>
      seq(a.Length1, j requires 0 <= j < a.Length1 reads a => a[i, j]))
  }

  /**
   * Builds the canvas as `build_canvas_from_rows` does: a grid of blanks, overwritten
   * record by record in list order, then each grid row joined into a line.
   */
  method BuildCanvas(rows: seq<Record>) returns (lines: seq<string>)
    ensures lines == Picture(rows)
    ensures rows == [] ==> lines == []
    ensures rows != [] ==> |lines| == Height(rows)
  {
    if rows == [] {
      return [];
    }
    var xs := Xs(rows);
    var ys := Ys(rows);
    var xMin, xMax := Min(xs), Max(xs);
    var yMin, yMax := Min(ys), Max(ys);
    var width := xMax - xMin + 1;
    var height := yMax - yMin + 1;
    assert width == Width(rows) && height == Height(rows);
    var canvas := new string[height, width]((i, j) => " ");
    forall k | 0 <= k < |rows|
      ensures 0 <= rows[k].x - xMin < width && 0 <= height - 1 - (rows[k].y - yMin) < height
    {
      assert xs[k] == rows[k].x && ys[k] == rows[k].y;
    }
    Paint(rows, canvas, xMin, yMin);
    ContentsIsFrame(rows, canvas, xMin, yMin);
    lines := Lines(Contents(canvas));
  }

  /**
   * The loop over the records: each record's glyph overwrites the cell at
   * its column and flipped row, so the last record at a position wins.
   */
  method Paint(rows: seq<Record>, canvas: array2<string>, xMin: int, yMin: int)
    requires forall k :: 0 <= k < |rows| ==>
      0 <= rows[k].x - xMin < canvas.Length1 &&
      0 <= canvas.Length0 - 1 - (rows[k].y - yMin) < canvas.Length0
    requires forall i, j :: 0 <= i < canvas.Length0 && 0 <= j < canvas.Length1 ==> canvas[i, j] == " "
    modifies canvas
    ensures forall i, j :: 0 <= i < canvas.Length0 && 0 <= j < canvas.Length1 ==>
      canvas[i, j] == LastWrite(rows, xMin + j, yMin + (canvas.Length0 - 1 - i))
  {
    var height, width := canvas.Length0, canvas.Length1;
    for k := 0 to |rows|
      invariant forall i, j :: 0 <= i < height && 0 <= j < width ==>
        canvas[i, j] == LastWrite(rows[..k], xMin + j, yMin + (height - 1 - i))
    {
      var r := rows[k];
      var col := r.x - xMin;
      var rowFromBottom := r.y - yMin;
      var canvasRow := height - 1 - rowFromBottom;
      canvas[canvasRow, col] := r.glyph;
      assert rows[..k + 1] == rows[..k] + [r];
      forall i, j | 0 <= i < height && 0 <= j < width
        ensures canvas[i, j] == LastWrite(rows[..k + 1], xMin + j, yMin + (height - 1 - i))
      {
        LastWriteSnoc(rows[..k], r, xMin + j, yMin + (height - 1 - i));
      }
    }
    assert rows[..|rows|] == rows;
  }

  /** A buffer whose every cell holds what the frame holds there has the frame as its contents. */
  lemma ContentsIsFrame(rows: seq<Record>, canvas: array2<string>, x0: int, y0: int)
    requires forall i, j :: 0 <= i < canvas.Length0 && 0 <= j < canvas.Length1 ==>
      canvas[i, j] == LastWrite(rows, x0 + j, y0 + (canvas.Length0 - 1 - i))
    ensures Contents(canvas) == Frame(rows, x0, y0, canvas.Length1, canvas.Length0)
  {
    var c, f := Contents(canvas), Frame(rows, x0, y0, canvas.Length1, canvas.Length0);
    forall i | 0 <= i < canvas.Length0
      ensures c[i] == f[i]
    {
      forall j | 0 <= j < canvas.Length1
        ensures c[i][j] == f[i][j]
      {
        FrameAt(rows, x0, y0, canvas.Length1, canvas.Length0, i, j);
      }
    }
  }

  /**
   * Every record's column and grid row lie inside the grid, and the cell
   * there shows what was last written at that record's coordinates.
   */
  lemma RecordInBounds(rows: seq<Record>, k: nat)
    requires k < |rows|
    ensures 0 <= Col(rows, rows[k].x) < Width(rows)
    ensures 0 <= CanvasRow(rows, rows[k].y) < Height(rows)
    ensures |Grid(rows)| == Height(rows) && |Grid(rows)[CanvasRow(rows, rows[k].y)]| == Width(rows)
    ensures Grid(rows)[CanvasRow(rows, rows[k].y)][Col(rows, rows[k].x)] ==
      LastWrite(rows, rows[k].x, rows[k].y)
  {
    var xs, ys := Xs(rows), Ys(rows);
    assert xs[k] == rows[k].x && ys[k] == rows[k].y;
    assert Min(xs) <= rows[k].x <= Max(xs) && Min(ys) <= rows[k].y <= Max(ys);
    var i, j := CanvasRow(rows, rows[k].y), Col(rows, rows[k].x);
    assert 0 <= i < Height(rows) && 0 <= j < Width(rows);
    GridAt(rows, i, j, rows[k].x, rows[k].y);
  }

  /** When records collide, the one latest in list order is the one shown. */
  lemma LastRecordWins(rows: seq<Record>, k: nat)
    requires k < |rows| && LastAt(rows, k, rows[k].x, rows[k].y)
    ensures 0 <= Col(rows, rows[k].x) < Width(rows)
    ensures 0 <= CanvasRow(rows, rows[k].y) < Height(rows)
    ensures Grid(rows)[CanvasRow(rows, rows[k].y)][Col(rows, rows[k].x)] == rows[k].glyph
  {
    RecordInBounds(rows, k);
    LastWriteWins(rows, k, rows[k].x, rows[k].y);
  }

  /** A cell that no record maps to is a blank. */
  lemma UnwrittenCellIsBlank(rows: seq<Record>, i: nat, j: nat)
    requires rows != [] && i < Height(rows) && j < Width(rows)
    requires forall k :: 0 <= k < |rows| ==>
      Col(rows, rows[k].x) != j || CanvasRow(rows, rows[k].y) != i
    ensures Grid(rows)[i][j] == " "
  {
    var x, y := Min(Xs(rows)) + j, Min(Ys(rows)) + (Height(rows) - 1 - i);
    forall k | 0 <= k < |rows|
      ensures !At(rows[k], x, y)
    {
    }
    LastWriteBlank(rows, x, y);
    GridAt(rows, i, j, x, y);
  }

  /** The canvas has one line per y in the bounding box, each joined from one cell per x. */
  lemma CanvasShape(rows: seq<Record>)
    requires rows != []
    ensures |Picture(rows)| == Height(rows) == Max(Ys(rows)) - Min(Ys(rows)) + 1
    ensures forall i :: 0 <= i < Height(rows) ==>
      |Grid(rows)[i]| == Width(rows) == Max(Xs(rows)) - Min(Xs(rows)) + 1 &&
      Picture(rows)[i] == Join(Grid(rows)[i])
  {
  }

  /** Cells of one-character glyphs join into a line of exactly that many characters. */
  lemma {:induction false} JoinSingleGlyphs(cells: seq<string>)
    requires forall j :: 0 <= j < |cells| ==> |cells[j]| == 1
    ensures |Join(cells)| == |cells|
    ensures forall j :: 0 <= j < |cells| ==> Join(cells)[j] == cells[j][0]
  {
    if cells != [] {
      JoinSingleGlyphs(cells[..|cells| - 1]);
    }
  }

  /** A cell holds a blank or the glyph of some record. */
  lemma {:induction false} LastWriteIsGlyphOrBlank(rows: seq<Record>, x: int, y: int)
    ensures LastWrite(rows, x, y) == " " ||
      exists k :: 0 <= k < |rows| && LastWrite(rows, x, y) == rows[k].glyph
  {
    if rows != [] && !At(rows[|rows| - 1], x, y) {
      var init := rows[..|rows| - 1];
      LastWriteIsGlyphOrBlank(init, x, y);
      if LastWrite(rows, x, y) != " " {
        var k :| 0 <= k < |init| && LastWrite(init, x, y) == init[k].glyph;
        assert init[k] == rows[k];
      }
    }
  }

  /**
   * With one-character glyphs, every line is exactly as long as the grid is
   * wide and its character j is the glyph in column j.
   */
  lemma SingleGlyphLines(rows: seq<Record>, i: nat)
    requires rows != [] && i < Height(rows)
    requires forall k :: 0 <= k < |rows| ==> |rows[k].glyph| == 1
    ensures |Picture(rows)[i]| == Width(rows)
    ensures forall j :: 0 <= j < Width(rows) ==>
      |Grid(rows)[i][j]| == 1 && Picture(rows)[i][j] == Grid(rows)[i][j][0]
  {
    var cells := Grid(rows)[i];
    forall j | 0 <= j < |cells|
      ensures |cells[j]| == 1
    {
      var x, y := Min(Xs(rows)) + j, Min(Ys(rows)) + (Height(rows) - 1 - i);
      GridAt(rows, i, j, x, y);
      LastWriteIsGlyphOrBlank(rows, x, y);
    }
    JoinSingleGlyphs(cells);
  }

  /** Every record moved by (dx, dy). */
  function Shift(rows: seq<Record>, dx: int, dy: int): (moved: seq<Record>)
    ensures |moved| == |rows|
  {
    seq(|rows|, k requires 0 <= k < |rows| => Record(rows[k].x + dx, rows[k].glyph, rows[k].y + dy))
  }

  /** Adding d to every element adds d to the minimum and to the maximum. */
  lemma MinMaxShift(s: seq<int>, t: seq<int>, d: int)
    requires |s| > 0 && |t| == |s|
    requires forall k :: 0 <= k < |s| ==> t[k] == s[k] + d
    ensures Min(t) == Min(s) + d && Max(t) == Max(s) + d
  {
    MinMaxAttained(s);
    MinMaxAttained(t);
    var kt :| 0 <= kt < |t| && t[kt] == Min(t);
    var ks :| 0 <= ks < |s| && s[ks] == Min(s);
    assert Min(t) <= t[ks];
    var kt' :| 0 <= kt' < |t| && t[kt'] == Max(t);
    var ks' :| 0 <= ks' < |s| && s[ks'] == Max(s);
    assert Max(t) >= t[ks'];
  }

  lemma {:induction false} LastWriteShift(rows: seq<Record>, dx: int, dy: int, x: int, y: int)
    ensures LastWrite(Shift(rows, dx, dy), x + dx, y + dy) == LastWrite(rows, x, y)
  {
    if rows != [] {
      var n := |rows|;
      assert Shift(rows, dx, dy)[..n - 1] == Shift(rows[..n - 1], dx, dy);
      LastWriteShift(rows[..n - 1], dx, dy, x, y);
    }
  }

  /** The bounding box of the moved records is the old one moved by the same offsets. */
  lemma ShiftBounds(rows: seq<Record>, dx: int, dy: int)
    requires rows != []
    ensures Min(Xs(Shift(rows, dx, dy))) == Min(Xs(rows)) + dx
    ensures Min(Ys(Shift(rows, dx, dy))) == Min(Ys(rows)) + dy
    ensures Width(Shift(rows, dx, dy)) == Width(rows)
    ensures Height(Shift(rows, dx, dy)) == Height(rows)
  {
    var moved := Shift(rows, dx, dy);
    MinMaxShift(Xs(rows), Xs(moved), dx);
    MinMaxShift(Ys(rows), Ys(moved), dy);
  }

  /** Moving the records and the frame by the same offsets leaves the frame's contents unchanged. */
  lemma FrameShift(rows: seq<Record>, dx: int, dy: int, x0: int, y0: int, w: nat, h: nat)
    ensures Frame(Shift(rows, dx, dy), x0 + dx, y0 + dy, w, h) == Frame(rows, x0, y0, w, h)
  {
    var a, b := Frame(Shift(rows, dx, dy), x0 + dx, y0 + dy, w, h), Frame(rows, x0, y0, w, h);
    forall i | 0 <= i < h
      ensures a[i] == b[i]
    {
      forall j | 0 <= j < w
        ensures a[i][j] == b[i][j]
      {
        var x, y := x0 + j, y0 + (h - 1 - i);
        FrameAt(Shift(rows, dx, dy), x0 + dx, y0 + dy, w, h, i, j);
        FrameAt(rows, x0, y0, w, h, i, j);
        LastWriteShift(rows, dx, dy, x, y);
      }
    }
  }

  /** Moving every record by the same offsets leaves the printed lines unchanged. */
  lemma TranslationInvariant(rows: seq<Record>, dx: int, dy: int)
    ensures Picture(Shift(rows, dx, dy)) == Picture(rows)
  {
    if rows != [] {
      var moved := Shift(rows, dx, dy);
      var x0, y0, w, h := Min(Xs(rows)), Min(Ys(rows)), Width(rows), Height(rows);
      ShiftBounds(rows, dx, dy);
      GridIsFrame(moved, x0 + dx, y0 + dy, w, h);
      FrameShift(rows, dx, dy, x0, y0, w, h);
      assert Grid(moved) == Grid(rows);
    }
  }
}
