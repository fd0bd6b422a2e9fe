/**
 * `TableParser`: the event-driven extractor of coordinate rows from an HTML
 * table. The markup arrives already tokenised as a sequence of events; only
 * `td` and `tr` tags matter, every other tag is ignored.
 */
module TableParsing {
  import opened Text
  import opened Rows

  /** A tokenised markup event, as the HTML scanner reports it. */
  datatype Event = StartTag(name: string) | EndTag(name: string) | Data(text: string)

  /** The parser's four fields as one value. */
  datatype ParserState = ParserState(
    inTd: bool,
    currentRow: seq<string>,
    rows: seq<Record>,
    dataBuffer: string)

  /** The state a freshly constructed parser starts in. */
  const Initial := ParserState(false, [], [], "")

  /** The effect of one event on the parser's fields. */
  function Step(s: ParserState, e: Event): ParserState {
    match e
    case StartTag(tag) =>
      if tag == "td" then s.(inTd := true, dataBuffer := "")
      else if tag == "tr" then s.(currentRow := [])
      else s
    case Data(text) =>
      if s.inTd then
        var clean := Strip(text);
        if clean != "" then s.(dataBuffer := s.dataBuffer + clean) else s
      else s
    case EndTag(tag) =>
      if tag == "td" then s.(inTd := false, currentRow := s.currentRow + [s.dataBuffer])
      else if tag == "tr" then s.(rows := s.rows + Emitted(s.currentRow))
      else s
  }

  /** The effect of a whole event sequence, applied in order. */
  function Run(s: ParserState, es: seq<Event>): ParserState {
    if es == [] then s else Step(Run(s, es[..|es| - 1]), es[|es| - 1])
  }

  class TableParser {
    var inTd: bool
    var currentRow: seq<string>
    var rows: seq<Record>
    var dataBuffer: string

    function State(): ParserState
      reads this
    {
      ParserState(inTd, currentRow, rows, dataBuffer)
    }

    constructor ()
      ensures State() == Initial
    {
      inTd := false;
      currentRow := [];
      rows := [];
      dataBuffer := "";
    }

    /** `<td>` opens a cell with an empty buffer; `<tr>` opens a row with no cells. */
    method HandleStartTag(tag: string)
      modifies this
      ensures tag == "td" ==> inTd && dataBuffer == "" && currentRow == old(currentRow)
      ensures tag == "tr" ==>
        currentRow == [] && inTd == old(inTd) && dataBuffer == old(dataBuffer)
      ensures tag != "td" && tag != "tr" ==> State() == old(State())
      ensures rows == old(rows)
      ensures State() == Step(old(State()), StartTag(tag))
    {
      if tag == "td" {
        inTd := true;
        dataBuffer := "";
      } else if tag == "tr" {
        currentRow := [];
      }
    }

    /** Text inside a cell is stripped and, unless empty, appended to the buffer. */
    method HandleData(data: string)
      modifies this
      ensures inTd == old(inTd) && currentRow == old(currentRow) && rows == old(rows)
      ensures dataBuffer == if old(inTd) then old(dataBuffer) + Strip(data) else old(dataBuffer)
      ensures State() == Step(old(State()), Data(data))
    {
      if inTd {
        var cleanData := Strip(data);
        if cleanData != "" {
          dataBuffer := dataBuffer + cleanData;
        }
      }
    }

    /**
     * `</td>` closes the cell and appends the buffer to the row, without
     * clearing the buffer; `</tr>` appends the row's record, if it has one,
     * without clearing the row.
     */
    method HandleEndTag(tag: string)
      modifies this
      ensures tag == "td" ==>
        !inTd && currentRow == old(currentRow) + [old(dataBuffer)] && rows == old(rows)
      ensures tag == "tr" ==>
        rows == old(rows) + Emitted(old(currentRow)) &&
        inTd == old(inTd) && currentRow == old(currentRow)
      ensures tag != "td" && tag != "tr" ==> State() == old(State())
      ensures dataBuffer == old(dataBuffer)
      ensures State() == Step(old(State()), EndTag(tag))
    {
      if tag == "td" {
        inTd := false;
        currentRow := currentRow + [dataBuffer];
        assert State() == Step(old(State()), EndTag(tag));
      } else if tag == "tr" {
        if |currentRow| == 3 {
          match (ParseInt(currentRow[0]), ParseInt(currentRow[2]))
          case (Some(x), Some(y)) =>
            assert Emitted(currentRow) == [Record(x, currentRow[1], y)];
            rows := rows + [Record(x, currentRow[1], y)];
            assert State() == Step(old(State()), EndTag(tag));
          case _ =>
            assert Emitted(currentRow) == [];
            assert State() == Step(old(State()), EndTag(tag));
        } else {
          assert State() == Step(old(State()), EndTag(tag));
        }
      } else {
        assert State() == Step(old(State()), EndTag(tag));
      }
    }

    /** Dispatches every event, in order, to its handler. */
    method Feed(events: seq<Event>)
      modifies this
      ensures State() == Run(old(State()), events)
    {
      for i := 0 to |events|
        invariant State() == Run(old(State()), events[..i])
      {
        assert events[..i + 1][..i] == events[..i];
        match events[i]
        case StartTag(tag) => HandleStartTag(tag);
        case EndTag(tag) => HandleEndTag(tag);
        case Data(text) => HandleData(text);
      }
      assert events[..|events|] == events;
    }
  }

  /** Running an event sequence in two parts has the same effect as running it at once. */
  lemma {:induction false} RunAppend(s: ParserState, a: seq<Event>, b: seq<Event>)
    ensures Run(s, a + b) == Run(Run(s, a), b)
  {
    if b != [] {
      assert (a + b)[..|a + b| - 1] == a + b[..|b| - 1];
      RunAppend(s, a, b[..|b| - 1]);
    } else {
      assert a + b == a;
    }
  }

  /**
   * Records are only ever appended: earlier ones are kept in place, and
   * each event adds at most one.
   */
  lemma {:induction false} RunRowsGrow(s: ParserState, es: seq<Event>)
    ensures s.rows <= Run(s, es).rows
    ensures |Run(s, es).rows| <= |s.rows| + |es|
  {
    if es != [] {
      RunRowsGrow(s, es[..|es| - 1]);
    }
  }

  /** Text outside a cell changes nothing. */
  lemma DataOutsideCell(s: ParserState, text: string)
    requires !s.inTd
    ensures Step(s, Data(text)) == s
  {
  }

  /** Whitespace-only text changes nothing, inside a cell or outside one. */
  lemma BlankDataIgnored(s: ParserState, text: string)
    requires forall k :: 0 <= k < |text| ==> IsSpace(text[k])
    ensures Step(s, Data(text)) == s
  {
  }

  /** Tags other than `td` and `tr`, opening or closing, change nothing. */
  lemma OtherTagsIgnored(s: ParserState, tag: string)
    requires tag != "td" && tag != "tr"
    ensures Step(s, StartTag(tag)) == s && Step(s, EndTag(tag)) == s
  {
  }

  /**
   * Each event either leaves the records alone or, on `</tr>`, appends
   * what the current row yields.
   */
  lemma StepRows(s: ParserState, e: Event)
    ensures Step(s, e).rows == if e == EndTag("tr") then s.rows + Emitted(s.currentRow) else s.rows
  {
  }

  /** `</td>` with no `<td>` before it appends the previous cell's text a second time. */
  lemma StrayEndCellRepeatsBuffer(s: ParserState)
    ensures Run(s, [EndTag("td"), EndTag("td")]).currentRow ==
      s.currentRow + [s.dataBuffer, s.dataBuffer]
  {
    RunPair(s, EndTag("td"), EndTag("td"));
  }

  /** A second `</tr>` emits the same row's record a second time. */
  lemma RepeatedEndRowReEmits(s: ParserState)
    ensures Run(s, [EndTag("tr"), EndTag("tr")]).rows ==
      s.rows + Emitted(s.currentRow) + Emitted(s.currentRow)
  {
    RunPair(s, EndTag("tr"), EndTag("tr"));
  }

  lemma RunPair(s: ParserState, e1: Event, e2: Event)
    ensures Run(s, [e1, e2]) == Step(Step(s, e1), e2)
  {
    assert [e1, e2][..1] == [e1];
    assert [e1][..0] == [];
    assert Run(s, [e1]) == Step(s, e1);
  }

  // Well-formed table markup, built from the text fragments of each cell.

  function DataEvents(frags: seq<string>): seq<Event> {
    if frags == [] then [] else DataEvents(frags[..|frags| - 1]) + [Data(frags[|frags| - 1])]
  }

  /** `<td>`, the cell's text fragments, `</td>`. */
  function CellEvents(frags: seq<string>): seq<Event> {
    [StartTag("td")] + DataEvents(frags) + [EndTag("td")]
  }

  function CellsEvents(cells: seq<seq<string>>): seq<Event> {
    if cells == [] then [] else CellsEvents(cells[..|cells| - 1]) + CellEvents(cells[|cells| - 1])
  }

  /** `<tr>`, its cells, `</tr>`. */
  function RowEvents(cells: seq<seq<string>>): seq<Event> {
    [StartTag("tr")] + CellsEvents(cells) + [EndTag("tr")]
  }

  function TableEvents(table: seq<seq<seq<string>>>): seq<Event> {
    if table == [] then [] else TableEvents(table[..|table| - 1]) + RowEvents(table[|table| - 1])
  }

  /** Rows each preceded by the same run of text, as indented markup has between its tags. */
  function SpacedTableEvents(table: seq<seq<seq<string>>>, gap: string): seq<Event> {
    if table == [] then []
    else SpacedTableEvents(table[..|table| - 1], gap) + [Data(gap)] + RowEvents(table[|table| - 1])
  }

  /** A cell's text: its fragments, each stripped, joined with no separator. */
  function CellText(frags: seq<string>): string {
    if frags == [] then "" else CellText(frags[..|frags| - 1]) + Strip(frags[|frags| - 1])
  }

  function CellTexts(cells: seq<seq<string>>): (texts: seq<string>)
    ensures |texts| == |cells|
  {
    if cells == [] then [] else CellTexts(cells[..|cells| - 1]) + [CellText(cells[|cells| - 1])]
  }

  /** The records a table yields: one per row whose cells make a record, in row order. */
  function TableRecords(table: seq<seq<seq<string>>>): seq<Record> {
    if table == [] then []
    else TableRecords(table[..|table| - 1]) + Emitted(CellTexts(table[|table| - 1]))
  }

  /** A cell's text never starts or ends with whitespace: every fragment in it was stripped. */
  lemma {:induction false} CellTextUnpadded(frags: seq<string>)
    ensures var t := CellText(frags); t == [] || (!IsSpace(t[0]) && !IsSpace(t[|t| - 1]))
  {
    if frags != [] {
      var init := frags[..|frags| - 1];
      CellTextUnpadded(init);
      ConcatUnpadded(CellText(init), Strip(frags[|frags| - 1]));
    }
  }

  /** So `int()` finds nothing to skip in a cell's text and reads it as it is. */
  lemma CellTextIntTrimmed(frags: seq<string>)
    ensures IntTrim(CellText(frags)) == CellText(frags)
  {
    CellTextUnpadded(frags);
    IntTrimmed(CellText(frags));
  }

  /** Running one more event is one more step. */
  lemma RunSnoc(s: ParserState, es: seq<Event>, e: Event)
    ensures Run(s, es + [e]) == Step(Run(s, es), e)
  {
    assert (es + [e])[..|es|] == es;
  }

  /** Inside a cell, one fragment's stripped text is appended to the buffer. */
  lemma DataInsideCell(s: ParserState, text: string)
    requires s.inTd
    ensures Step(s, Data(text)) == s.(dataBuffer := s.dataBuffer + Strip(text))
  {
    if Strip(text) == "" {
      assert s.dataBuffer + Strip(text) == s.dataBuffer;
    }
  }

  /** Regrouping a concatenation; kept as a lemma so the step is proved outside the larger proofs. */
  lemma Associative<T>(a: seq<T>, b: seq<T>, c: seq<T>)
    ensures a + b + c == a + (b + c)
  {
  }

  /** Inside a cell, the fragments' stripped text is concatenated onto the buffer. */
  lemma {:induction false} DataFragments(s: ParserState, frags: seq<string>)
    requires s.inTd
    ensures Run(s, DataEvents(frags)) == s.(dataBuffer := s.dataBuffer + CellText(frags))
  {
    if frags == [] {
      assert s.dataBuffer + "" == s.dataBuffer;
    } else {
      DataFragments(s, frags[..|frags| - 1]);
      DataFragmentsLast(s, frags);
    }
  }

  lemma DataFragmentsLast(s: ParserState, frags: seq<string>)
    requires s.inTd && frags != []
    requires var init := frags[..|frags| - 1];
      Run(s, DataEvents(init)) == s.(dataBuffer := s.dataBuffer + CellText(init))
    ensures Run(s, DataEvents(frags)) == s.(dataBuffer := s.dataBuffer + CellText(frags))
  {
    var init, f := frags[..|frags| - 1], frags[|frags| - 1];
    var before := s.(dataBuffer := s.dataBuffer + CellText(init));
    var after := s.(dataBuffer := s.dataBuffer + CellText(frags));
    assert DataEvents(frags) == DataEvents(init) + [Data(f)];
    assert Run(s, DataEvents(init) + [Data(f)]) == Step(before, Data(f)) by {
      RunSnoc(s, DataEvents(init), Data(f));
    }
    assert CellText(frags) == CellText(init) + Strip(f);
    assert Step(before, Data(f)) == after by {
      DataInsideCell(before, f);
      Associative(s.dataBuffer, CellText(init), Strip(f));
    }
  }

  /** A cell appends exactly one string, its text, to the current row. */
  lemma CellCollects(s: ParserState, frags: seq<string>)
    ensures Run(s, CellEvents(frags)) ==
      s.(inTd := false, dataBuffer := CellText(frags), currentRow := s.currentRow + [CellText(frags)])
  {
    var open := s.(inTd := true, dataBuffer := "");
    RunSnoc(s, [], StartTag("td"));
    assert Run(s, [StartTag("td")]) == open;
    RunAppend(s, [StartTag("td")], DataEvents(frags));
    DataFragments(open, frags);
    var filled := open.(dataBuffer := CellText(frags));
    assert "" + CellText(frags) == CellText(frags);
    assert Run(s, [StartTag("td")] + DataEvents(frags)) == filled;
    RunSnoc(s, [StartTag("td")] + DataEvents(frags), EndTag("td"));
  }

  /** The cells of a row append their texts in order. */
  lemma {:induction false} CellsCollect(s: ParserState, cells: seq<seq<string>>)
    ensures var t := Run(s, CellsEvents(cells));
      t.rows == s.rows && t.currentRow == s.currentRow + CellTexts(cells) &&
      (cells != [] ==> !t.inTd && t.dataBuffer == CellText(cells[|cells| - 1])) &&
      (cells == [] ==> t == s)
  {
    if cells == [] {
      assert s.currentRow + [] == s.currentRow;
    } else {
      CellsCollect(s, cells[..|cells| - 1]);
      CellsCollectLast(s, cells);
    }
  }

  lemma CellsCollectLast(s: ParserState, cells: seq<seq<string>>)
    requires cells != []
    requires var t := Run(s, CellsEvents(cells[..|cells| - 1]));
      t.rows == s.rows && t.currentRow == s.currentRow + CellTexts(cells[..|cells| - 1])
    ensures var t := Run(s, CellsEvents(cells));
      t.rows == s.rows && t.currentRow == s.currentRow + CellTexts(cells) &&
      !t.inTd && t.dataBuffer == CellText(cells[|cells| - 1])
  {
    var init, c := cells[..|cells| - 1], cells[|cells| - 1];
    var mid := Run(s, CellsEvents(init));
    RunAppend(s, CellsEvents(init), CellEvents(c));
    CellCollects(mid, c);
    Associative(s.currentRow, CellTexts(init), [CellText(c)]);
  }

  /**
   * A `<tr>` ... `</tr>` row appends one record when its cell texts make
   * one, and nothing otherwise; the row's cells stay in `currentRow`.
   */
  lemma RowEmits(s: ParserState, cells: seq<seq<string>>)
    ensures var t := Run(s, RowEvents(cells));
      t.rows == s.rows + Emitted(CellTexts(cells)) &&
      t.currentRow == CellTexts(cells) && (cells != [] ==> !t.inTd)
  {
    var open := s.(currentRow := []);
    var body := [StartTag("tr")] + CellsEvents(cells);
    RunSnoc(s, [], StartTag("tr"));
    assert Run(s, [StartTag("tr")]) == open;
    RunAppend(s, [StartTag("tr")], CellsEvents(cells));
    var mid := Run(open, CellsEvents(cells));
    assert Run(s, body) == mid;
    CellsCollect(open, cells);
    assert mid.currentRow == CellTexts(cells);
    assert RowEvents(cells) == body + [EndTag("tr")];
    RunSnoc(s, body, EndTag("tr"));
    assert Run(s, RowEvents(cells)) == Step(mid, EndTag("tr"));
  }

  /**
   * A table of rows yields one record for every row whose cell texts make
   * one, in row order; malformed rows add nothing and do not disturb later
   * rows.
   */
  lemma {:induction false} TableEmits(s: ParserState, table: seq<seq<seq<string>>>)
    ensures Run(s, TableEvents(table)).rows == s.rows + TableRecords(table)
  {
    if table != [] {
      TableEmits(s, table[..|table| - 1]);
      TableEmitsLast(s, table);
    }
  }

  lemma TableEmitsLast(s: ParserState, table: seq<seq<seq<string>>>)
    requires table != []
    requires Run(s, TableEvents(table[..|table| - 1])).rows ==
      s.rows + TableRecords(table[..|table| - 1])
    ensures Run(s, TableEvents(table)).rows == s.rows + TableRecords(table)
  {
    var init, row := table[..|table| - 1], table[|table| - 1];
    var mid := Run(s, TableEvents(init));
    assert TableEvents(table) == TableEvents(init) + RowEvents(row);
    assert TableRecords(table) == TableRecords(init) + Emitted(CellTexts(row));
    RunAppend(s, TableEvents(init), RowEvents(row));
    RowEmits(mid, row);
    Associative(s.rows, TableRecords(init), Emitted(CellTexts(row)));
  }

  /** Only `</tr>` adds records: a run of other events leaves the records as they are. */
  lemma {:induction false} RunKeepsRows(s: ParserState, es: seq<Event>)
    requires forall k :: 0 <= k < |es| ==> es[k] != EndTag("tr")
    ensures Run(s, es).rows == s.rows
  {
    if es != [] {
      RunKeepsRows(s, es[..|es| - 1]);
      StepRows(Run(s, es[..|es| - 1]), es[|es| - 1]);
    }
  }

  /**
   * Whitespace between the rows of a table changes nothing: the rows yield
   * the same records as without it.
   */
  lemma {:induction false} SpacedTableEmits(s: ParserState, table: seq<seq<seq<string>>>, gap: string)
    requires forall k :: 0 <= k < |gap| ==> IsSpace(gap[k])
    ensures Run(s, SpacedTableEvents(table, gap)).rows == s.rows + TableRecords(table)
  {
    if table == [] {
      assert s.rows + [] == s.rows;
    } else {
      SpacedTableEmits(s, table[..|table| - 1], gap);
      SpacedTableEmitsLast(s, table, gap);
    }
  }

  lemma SpacedTableEmitsLast(s: ParserState, table: seq<seq<seq<string>>>, gap: string)
    requires forall k :: 0 <= k < |gap| ==> IsSpace(gap[k])
    requires table != []
    requires Run(s, SpacedTableEvents(table[..|table| - 1], gap)).rows ==
      s.rows + TableRecords(table[..|table| - 1])
    ensures Run(s, SpacedTableEvents(table, gap)).rows == s.rows + TableRecords(table)
  {
    var init, row := table[..|table| - 1], table[|table| - 1];
    var before := SpacedTableEvents(init, gap);
    var lead := before + [Data(gap)];
    var mid := Run(s, before);
    assert SpacedTableEvents(table, gap) == lead + RowEvents(row);
    assert TableRecords(table) == TableRecords(init) + Emitted(CellTexts(row));
    RunSnoc(s, before, Data(gap));
    BlankDataIgnored(mid, gap);
    assert Run(s, lead) == mid;
    RunAppend(s, lead, RowEvents(row));
    RowEmits(mid, row);
    Associative(s.rows, TableRecords(init), Emitted(CellTexts(row)));
  }
}
