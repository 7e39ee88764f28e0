// The ABCSV document: a rectangular table of cells with the separators and
// the quoting rule used to write it out, its constructors (among them the
// one that scans and collects a text), its serialisation, and the row and
// column edits it forwards to the table.

module CsvDocument {
  import opened CsvCell
  import opened CsvParser
  import opened CsvScanFacts
  import opened CsvCollector
  import opened CsvTable

  /** Which cells `stringRepresentation` wraps in double quotes. */
  datatype QuotingRule = AllFields | AllTextFields | NecessaryTextFields | NoQuoting

  /** What serialisation depends on besides the cells. */
  datatype Format = Format(conv: Conversions, rule: QuotingRule, valueSeparator: string, rowSeparator: string)

  const DefaultValueSeparator: string := ","
  const DefaultRowSeparator: string := "\n"

  /** `containsString`: `t` occurs in `s`; never true for an empty `t`. */
  predicate ContainsString(s: string, t: string)
  {
    t != [] && exists i :: 0 <= i <= |s| && OccursAt(s, t, i)
  }

  predicate OccursAt(s: string, t: string, i: int)
  {
    0 <= i && i + |t| <= |s| && s[i..i + |t|] == t
  }

  /** The text between a pair of double quotes, copied as it is. */
  function Wrap(s: string): (r: string)
    ensures |r| == |s| + 2 && r[0] == '"' && r[|r| - 1] == '"' && r[1..|r| - 1] == s
  {
    "\"" + s + "\""
  }

  /**
   * `applyQuotingRuleToCell`: the description, wrapped in double quotes when
   * the rule asks for it. Quotes inside the description are not escaped.
   */
  function ApplyQuotingRule(fmt: Format, c: Cell): (r: string)
    ensures var d := Description(fmt.conv, c);
      && (fmt.rule.AllFields? ==> r == Wrap(d))
      && (fmt.rule.AllTextFields? ==> r == if IsText(c) then Wrap(d) else d)
      && (fmt.rule.NecessaryTextFields? ==>
            r == if IsText(c) && (ContainsString(d, fmt.rowSeparator) || ContainsString(d, fmt.valueSeparator))
                 then Wrap(d) else d)
      && (fmt.rule.NoQuoting? ==> r == d)
  {
    match fmt.rule
    case AllFields => Wrap(Description(fmt.conv, c))
    case AllTextFields =>
      if IsText(c) then Wrap(Description(fmt.conv, c)) else Description(fmt.conv, c)
    case NecessaryTextFields =>
      var desc := Description(fmt.conv, c);
      if IsText(c) && (ContainsString(desc, fmt.rowSeparator) || ContainsString(desc, fmt.valueSeparator)) then
        Wrap(desc)
      else Description(fmt.conv, c)
    case NoQuoting => Description(fmt.conv, c)
  }

  /** A cell is wrapped or written as its bare description, and nothing else. */
  lemma QuotedOrBare(fmt: Format, c: Cell)
    ensures var d := Description(fmt.conv, c);
      var r := ApplyQuotingRule(fmt, c);
      (r == Wrap(d) || r == d) && (r == Wrap(d) ==> |r| == |d| + 2)
  {
  }

  // ---------------------------------------------------------------------
  // Serialisation

  /** Every cell but the last of a row: each quoted per the rule and followed by the value separator. */
  function Fields(fmt: Format, cells: seq<Cell>): string
    decreases |cells|
  {
    if cells == [] then ""
    else Fields(fmt, cells[..|cells| - 1]) + ApplyQuotingRule(fmt, cells[|cells| - 1]) + fmt.valueSeparator
  }

  /** One row: its leading fields, then the last cell's bare description, then the row separator. */
  function RowText(fmt: Format, row: seq<Cell>): string
    requires |row| > 0
  {
    Fields(fmt, row[..|row| - 1]) + Description(fmt.conv, row[|row| - 1]) + fmt.rowSeparator
  }

  predicate RowsNonEmpty(rows: seq<seq<Cell>>)
  {
    forall i :: 0 <= i < |rows| ==> |rows[i]| > 0
  }

  /** The whole table, row after row, each row closed by the row separator. */
  function Serialize(fmt: Format, rows: seq<seq<Cell>>): string
    requires RowsNonEmpty(rows)
    decreases |rows|
  {
    if rows == [] then ""
    else Serialize(fmt, rows[..|rows| - 1]) + RowText(fmt, rows[|rows| - 1])
  }

  /**
   * The last cell of a row is written bare whatever the rule, even when it
   * holds a separator: the row ends with its description and the row
   * separator.
   */
  lemma LastCellNeverQuoted(fmt: Format, row: seq<Cell>)
    requires |row| > 0
    ensures var t := RowText(fmt, row);
      var tail := Description(fmt.conv, row[|row| - 1]) + fmt.rowSeparator;
      |tail| <= |t| && t[|t| - |tail|..] == tail
  {
    var f := Fields(fmt, row[..|row| - 1]);
    var tail := Description(fmt.conv, row[|row| - 1]) + fmt.rowSeparator;
    assert RowText(fmt, row) == f + tail;
  }

  lemma FieldsSnoc(fmt: Format, cells: seq<Cell>, c: nat)
    requires c < |cells|
    ensures Fields(fmt, cells[..c + 1]) == Fields(fmt, cells[..c]) + ApplyQuotingRule(fmt, cells[c]) + fmt.valueSeparator
  {
    assert cells[..c + 1][..c] == cells[..c];
  }

  lemma SerializeSnoc(fmt: Format, rows: seq<seq<Cell>>, r: nat)
    requires RowsNonEmpty(rows) && r < |rows|
    ensures RowsNonEmpty(rows[..r]) && RowsNonEmpty(rows[..r + 1])
    ensures Serialize(fmt, rows[..r + 1]) == Serialize(fmt, rows[..r]) + RowText(fmt, rows[r])
  {
    assert rows[..r + 1][..r] == rows[..r];
  }

  /** Writing two tables one after the other writes their rows one after the other. */
  lemma {:induction false} SerializeAppend(fmt: Format, a: seq<seq<Cell>>, b: seq<seq<Cell>>)
    requires RowsNonEmpty(a) && RowsNonEmpty(b)
    ensures RowsNonEmpty(a + b)
    ensures Serialize(fmt, a + b) == Serialize(fmt, a) + Serialize(fmt, b)
    decreases |b|
  {
    if b == [] {
      assert a + b == a;
    } else {
      var init, last := b[..|b| - 1], b[|b| - 1];
      SnocParts(a, b);
      SerializeAppend(fmt, a, init);
      SerializeLast(fmt, a + init, last);
      SerializeLast(fmt, init, last);
      ConcatAssoc(Serialize(fmt, a), Serialize(fmt, init), RowText(fmt, last));
    }
  }

  lemma SnocParts(a: seq<seq<Cell>>, b: seq<seq<Cell>>)
    requires RowsNonEmpty(b) && b != []
    ensures RowsNonEmpty(b[..|b| - 1]) && |b[|b| - 1]| > 0
    ensures b == b[..|b| - 1] + [b[|b| - 1]] && a + b == (a + b[..|b| - 1]) + [b[|b| - 1]]
  {
  }

  lemma ConcatAssoc(x: string, y: string, z: string)
    ensures (x + y) + z == x + (y + z)
  {
  }

  lemma SerializeLast(fmt: Format, rows: seq<seq<Cell>>, row: seq<Cell>)
    requires RowsNonEmpty(rows) && |row| > 0
    ensures RowsNonEmpty(rows + [row])
    ensures Serialize(fmt, rows + [row]) == Serialize(fmt, rows) + RowText(fmt, row)
  {
    var r := rows + [row];
    assert r[..|r| - 1] == rows;
  }

  /**
   * The body of the row loop of `stringRepresentation`: every cell but the
   * last quoted per the rule and followed by the value separator, then the
   * last cell's description and the row separator.
   */
  method WriteRow(fmt: Format, row: seq<Cell>) returns (line: string)
    requires |row| > 0
    ensures line == RowText(fmt, row)
  {
    line := "";
    for c := 0 to |row| - 1
      invariant line == Fields(fmt, row[..c])
    {
      FieldsSnoc(fmt, row, c);
      line := line + ApplyQuotingRule(fmt, row[c]) + fmt.valueSeparator;
    }
    line := line + Description(fmt.conv, row[|row| - 1]);
    line := line + fmt.rowSeparator;
  }

  // ---------------------------------------------------------------------
  // Reading a text

  /**
   * What `init(fromString:)` gets from its text: the default scan of the
   * CRLF-normalised text, collected; `None` where collecting traps.
   */
  function Load(conv: Conversions, s: string): (r: Option<CollectorState>)
    ensures r.Some? ==> Rectangular(r.value.contents, r.value.columns)
  {
    var chars := ReplaceCRLF(s, '\n');
    SplitRowsNonEmpty(DefaultConfig, chars);
    var t := Split(DefaultConfig, chars);
    if Collected(conv, t).Some? then CollectedRectangular(conv, t); Collected(conv, t) else None
  }

  /** The empty text cannot be read: the collector trims its one blank row and then reads a missing one. */
  lemma EmptyTextTraps(conv: Conversions)
    ensures Load(conv, "") == None
  {
    assert ReplaceCRLF("", '\n') == "";
    EmptyText(DefaultConfig);
    BlankInputTraps(conv, "");
    ReplayTrace(conv, [[""]]);
  }

  /**
   * The parser's calls on its delegate, one per event, in order; the table
   * the collector hands over at `didEndDocument` is kept.
   */
  method FeedCollector(collector: Collector, events: seq<Event>) returns (matrix: seq<seq<Cell>>)
    requires collector.Valid() && Replay(collector.conv, collector.Current(), events).Some?
    requires |events| > 0 && events[|events| - 1] == DidEndDocument
    modifies collector
    ensures Some(collector.Current()) == Replay(collector.conv, old(collector.Current()), events)
    ensures matrix == collector.contents
  {
    ghost var st0 := collector.Current();
    matrix := [];
    var i := 0;
    while i < |events|
      invariant i <= |events| && collector.Valid()
      invariant Replay(collector.conv, st0, events[..i]) == Some(collector.Current())
      invariant 0 < i && events[i - 1] == DidEndDocument ==> matrix == collector.contents
    {
      ReplayResumes(collector.conv, st0, events, i, collector.Current());
      if events[i] == DidEndDocument {
        matrix := collector.DidEndDocument();
      } else {
        collector.Handle(events[i]);
      }
      i := i + 1;
    }
    assert events[..i] == events;
  }

  /** Replaying the events of the default scan from a fresh collector is what `Load` describes; the last event ends the document. */
  lemma LoadReplaysTrace(conv: Conversions, s: string)
    ensures var es := Trace(Split(DefaultConfig, ReplaceCRLF(s, '\n')));
      Replay(conv, Init(), es) == Load(conv, s) && |es| > 0 && es[|es| - 1] == DidEndDocument
  {
    var t := Split(DefaultConfig, ReplaceCRLF(s, '\n'));
    LoadCollects(conv, s);
    ReplayTrace(conv, t);
    TraceLast(t);
  }

  lemma LoadCollects(conv: Conversions, s: string)
    ensures var t := Split(DefaultConfig, ReplaceCRLF(s, '\n'));
      IsTable(t) && Load(conv, s) == Collected(conv, t)
  {
    SplitRowsNonEmpty(DefaultConfig, ReplaceCRLF(s, '\n'));
  }

  lemma TraceLast(t: seq<seq<string>>)
    requires IsTable(t)
    ensures |Trace(t)| > 0 && Trace(t)[|Trace(t)| - 1] == DidEndDocument
  {
    TraceEnds(t);
  }

  /** A parser with the default arguments over the text, run to the end: the events it delivers. */
  method ScanEvents(s: string) returns (events: seq<Event>)
    requires QuotesClosed(DefaultConfig, ReplaceCRLF(s, '\n'))
    ensures events == Trace(Split(DefaultConfig, ReplaceCRLF(s, '\n')))
  {
    var parser := new Parser(s);
    DefaultMembers();
    assert parser.ScanConfig() == DefaultConfig;
    assert parser.Characters() == ReplaceCRLF(s, '\n');
    parser.Parse();
    events := parser.trace;
  }

  /**
   * The work of `init(fromString:)`: a default parser over the text with a
   * fresh collector as its delegate; the table the collector hands over and
   * its column count.
   */
  method ReadText(conv: Conversions, s: string) returns (matrix: seq<seq<Cell>>, width: nat)
    requires QuotesClosed(DefaultConfig, ReplaceCRLF(s, '\n'))
    requires Load(conv, s).Some?
    ensures matrix == Load(conv, s).value.contents && width == Load(conv, s).value.columns
  {
    var events := ScanEvents(s);
    var collector := new Collector(conv);
    LoadReplaysTrace(conv, s);
    matrix := FeedCollector(collector, events);
    width := collector.columns;
  }

  // ---------------------------------------------------------------------
  // The document object

  class Document {
    const conv: Conversions
    var content: seq<seq<Cell>>
    var columns: nat
    var valueSeparator: string
    var rowSeparator: string
    var quotingRule: QuotingRule

    predicate Valid()
      reads this
    {
      Rectangular(content, columns)
    }

    function CurrentFormat(): Format
      reads this
    {
      Format(conv, quotingRule, valueSeparator, rowSeparator)
    }

    /** `init(rowCount:columnCount:withValue:...)`. */
    constructor (conv: Conversions, rowCount: nat := 1, columnCount: nat := 1, value: Cell := Empty,
                 valueSeparator: string := DefaultValueSeparator, rowSeparator: string := DefaultRowSeparator)
      ensures Valid() && |content| == rowCount && columns == columnCount
      ensures forall i, j :: 0 <= i < rowCount && 0 <= j < columnCount ==> content[i][j] == value
      ensures this.conv == conv && quotingRule == NecessaryTextFields
      ensures this.valueSeparator == valueSeparator && this.rowSeparator == rowSeparator
    {
      this.conv := conv;
      this.valueSeparator := valueSeparator;
      this.rowSeparator := rowSeparator;
      quotingRule := NecessaryTextFields;
      content := Filled(rowCount, columnCount, value);
      columns := columnCount;
    }

    /** `init(withHeaders:rowCount:)`: row 0 holds the headers, every other cell is `Empty`. */
    constructor WithHeaders(conv: Conversions, headers: seq<Cell>, rowCount: nat := 1)
      requires |headers| > 0 ==> rowCount > 0
      ensures Valid() && |content| == rowCount && columns == |headers|
      ensures forall k :: 0 <= k < |headers| ==> content[0][k] == HeaderOf(conv, headers[k])
      ensures forall i, k :: 1 <= i < rowCount && 0 <= k < |headers| ==> content[i][k] == Empty
      ensures this.conv == conv && quotingRule == NecessaryTextFields
      ensures valueSeparator == DefaultValueSeparator && rowSeparator == DefaultRowSeparator
    {
      this.conv := conv;
      valueSeparator := DefaultValueSeparator;
      rowSeparator := DefaultRowSeparator;
      quotingRule := NecessaryTextFields;
      content := Filled(rowCount, |headers|, Empty);
      columns := |headers|;
      new;
      for k := 0 to |headers|
        invariant |content| == rowCount && Rectangular(content, columns) && columns == |headers|
        invariant forall b :: 0 <= b < k ==> content[0][b] == HeaderOf(conv, headers[b])
        invariant forall a, b :: 0 <= a < rowCount && 0 <= b < |headers| && (a > 0 || b >= k) ==> content[a][b] == Empty
        invariant this.conv == conv && quotingRule == NecessaryTextFields
        invariant valueSeparator == DefaultValueSeparator && rowSeparator == DefaultRowSeparator
      {
        content := SetCell(content, 0, k, HeaderOf(conv, headers[k]));
      }
    }

    /** `init(fromMatrix:...)`: the table as given. */
    constructor FromMatrix(conv: Conversions, matrix: seq<seq<Cell>>, columnCount: nat,
                           valueSeparator: string := DefaultValueSeparator, rowSeparator: string := DefaultRowSeparator)
      requires Rectangular(matrix, columnCount)
      ensures Valid() && content == matrix && columns == columnCount
      ensures this.conv == conv && quotingRule == NecessaryTextFields
      ensures this.valueSeparator == valueSeparator && this.rowSeparator == rowSeparator
    {
      this.conv := conv;
      this.valueSeparator := valueSeparator;
      this.rowSeparator := rowSeparator;
      quotingRule := NecessaryTextFields;
      content := Filled(|matrix|, columnCount, Empty);
      columns := columnCount;
      content := matrix;
    }

    /**
     * `init(fromString:...)`: scans the text with a default parser, hands
     * the events to a collector and keeps what its callback delivers. The
     * separator arguments are not used: the scan uses the default sets and
     * the document gets the default separators.
     */
    constructor FromString(conv: Conversions, s: string,
                           valueSeparator: string := DefaultValueSeparator, rowSeparator: string := DefaultRowSeparator)
      requires QuotesClosed(DefaultConfig, ReplaceCRLF(s, '\n'))
      requires Load(conv, s).Some?
      ensures Valid() && content == Load(conv, s).value.contents && columns == Load(conv, s).value.columns
      ensures this.conv == conv && quotingRule == NecessaryTextFields
      ensures this.valueSeparator == DefaultValueSeparator && this.rowSeparator == DefaultRowSeparator
    {
      var matrix, width := ReadText(conv, s);
      this.conv := conv;
      this.valueSeparator := DefaultValueSeparator;
      this.rowSeparator := DefaultRowSeparator;
      quotingRule := NecessaryTextFields;
      content := matrix;
      columns := width;
    }

    /** `stringRepresentation`: the rows written one after the other. */
    method StringRepresentation() returns (s: string)
      requires Valid() && (|content| > 0 ==> columns >= 1)
      ensures RowsNonEmpty(content) && s == Serialize(CurrentFormat(), content)
    {
      var fmt := CurrentFormat();
      var rows := content;
      assert RowsNonEmpty(rows);
      s := "";
      for r := 0 to |rows|
        invariant s == Serialize(fmt, rows[..r])
      {
        var line := WriteRow(fmt, rows[r]);
        SerializeSnoc(fmt, rows, r);
        s := s + line;
      }
      assert rows[..|rows|] == rows;
    }

    // -------------------------------------------------------------------
    // Cells, rows and columns

    /** The `[row, column]` subscript, read. */
    method Get(row: nat, column: nat) returns (c: Cell)
      requires Valid() && row < |content| && column < columns
      ensures c == content[row][column]
    {
      c := content[row][column];
    }

    /** The `[row, column]` subscript, written. */
    method Set(row: nat, column: nat, value: Cell)
      requires Valid() && row < |content| && column < columns
      modifies this`content
      ensures Valid() && content == SetCell(old(content), row, column, value)
    {
      content := SetCell(content, row, column, value);
    }

    /** `row(_:)` and the `[row]` subscript, read. */
    method RowAt(i: nat) returns (r: seq<Cell>)
      requires Valid() && i < |content|
      ensures |r| == columns && r == content[i]
    {
      r := content[i];
    }

    /** `setRow(_:atIndex:)` and the `[row]` subscript, written. */
    method SetRow(newRow: seq<Cell>, i: nat)
      requires Valid() && i < |content| && |newRow| == columns
      modifies this`content
      ensures Valid() && content == old(content)[i := newRow]
    {
      content := content[i := newRow];
    }

    /** `column(_:)`. */
    method ColumnAt(j: nat) returns (c: seq<Cell>)
      requires Valid() && j < columns
      ensures c == CsvTable.Column(content, j)
    {
      c := CsvTable.Column(content, j);
    }

    method SetColumn(newColumn: seq<Cell>, j: nat)
      requires Valid() && j < columns && |newColumn| == |content|
      modifies this`content
      ensures Valid() && content == CsvTable.SetColumn(old(content), j, newColumn)
    {
      content := CsvTable.SetColumn(content, j, newColumn);
    }

    method SwapColumns(first: nat, second: nat)
      requires Valid() && first < columns && second < columns
      modifies this`content
      ensures Valid() && content == CsvTable.SwapColumns(old(content), first, second)
    {
      var temp := CsvTable.Column(content, first);
      content := CsvTable.SetColumn(content, first, CsvTable.Column(content, second));
      content := CsvTable.SetColumn(content, second, temp);
    }

    method InsertColumn(newColumn: seq<Cell>, j: nat)
      requires Valid() && j <= columns && |newColumn| == |content|
      modifies this`content, this`columns
      ensures columns == old(columns) + 1
      ensures Valid() && content == CsvTable.InsertColumn(old(content), j, newColumn)
    {
      content := CsvTable.InsertColumn(content, j, newColumn);
      columns := columns + 1;
    }

    method RemoveColumnAtIndex(j: nat)
      requires Valid() && j < columns
      modifies this`content, this`columns
      ensures columns == old(columns) - 1
      ensures Valid() && content == RemoveColumn(old(content), j)
    {
      content := RemoveColumn(content, j);
      columns := columns - 1;
    }

    method AppendColumn(newColumn: seq<Cell>)
      requires Valid() && |newColumn| == |content|
      modifies this`content, this`columns
      ensures columns == old(columns) + 1
      ensures Valid() && content == CsvTable.AppendColumn(old(content), newColumn)
      ensures content == CsvTable.InsertColumn(old(content), old(columns), newColumn)
    {
      AppendColumnIsInsert(content, columns, newColumn);
      content := CsvTable.AppendColumn(content, newColumn);
      columns := columns + 1;
    }

    method SwapRows(first: nat, second: nat)
      requires Valid() && first < |content| && second < |content|
      modifies this`content
      ensures Valid() && content == CsvTable.SwapRows(old(content), first, second)
    {
      var temp := content[first];
      content := content[first := content[second]];
      content := content[second := temp];
    }

    method InsertRow(newRow: seq<Cell>, i: nat)
      requires Valid() && i <= |content| && |newRow| == columns
      modifies this`content
      ensures Valid() && content == CsvTable.InsertRow(old(content), i, newRow)
    {
      content := CsvTable.InsertRow(content, i, newRow);
    }

    method RemoveRowAtIndex(i: nat)
      requires Valid() && i < |content|
      modifies this`content
      ensures Valid() && content == RemoveRow(old(content), i)
    {
      content := RemoveRow(content, i);
    }

    method AppendRow(newRow: seq<Cell>)
      requires Valid() && |newRow| == columns
      modifies this`content
      ensures Valid() && content == old(content) + [newRow]
      ensures content == CsvTable.InsertRow(old(content), |old(content)|, newRow)
    {
      content := content + [newRow];
    }
  }
}
