// Writing a document out and reading it back. With the default separators,
// the default scan of `stringRepresentation` finds every cell's description
// in place, plus the empty row after the final row separator, provided each
// field survives the scan: a description holding no separator and no quote
// written bare, or one holding no quote and no carriage return written
// between quotes (which the quoting rules do for text holding a separator).
// The last cell of a row is always written bare. When every cell also reads
// back as itself, the collector rebuilds the very same table.

module CsvRoundTrip {
  import opened CsvCell
  import opened CsvParser
  import opened CsvScanFacts
  import opened CsvCollector
  import opened CsvTable
  import opened CsvDocument

  /** The descriptions of a row's cells, in order. */
  function DescribeRow(conv: Conversions, row: seq<Cell>): (r: seq<string>)
    ensures |r| == |row| && forall k :: 0 <= k < |row| ==> r[k] == Description(conv, row[k])
  {
    seq(|row|, k requires 0 <= k < |row| => Description(conv, row[k]))
  }

  /** The descriptions of a table's cells, row by row. */
  function DescribeTable(conv: Conversions, rows: seq<seq<Cell>>): (t: seq<seq<string>>)
    ensures |t| == |rows| && forall i :: 0 <= i < |rows| ==> t[i] == DescribeRow(conv, rows[i])
  {
    seq(|rows|, i requires 0 <= i < |rows| => DescribeRow(conv, rows[i]))
  }

  /** The separators a document gets when none are given. */
  predicate DefaultSeparators(fmt: Format)
  {
    fmt.valueSeparator == DefaultValueSeparator && fmt.rowSeparator == DefaultRowSeparator
  }

  /** No double quote and no carriage return: text a pair of quotes carries through the default scan. */
  predicate Quotable(d: string)
  {
    forall k :: 0 <= k < |d| ==> d[k] != '"' && d[k] != '\r'
  }

  /**
   * A field the default scan reads back as the cell's description: written
   * bare, the description holds no separator and no quote; written between
   * quotes, it holds no quote and no carriage return.
   */
  predicate SafeField(fmt: Format, c: Cell)
  {
    var d := Description(fmt.conv, c);
    AllPlain(DefaultConfig, d) || (ApplyQuotingRule(fmt, c) == Wrap(d) && Quotable(d))
  }

  predicate SafeFields(fmt: Format, cells: seq<Cell>)
  {
    forall k :: 0 <= k < |cells| ==> SafeField(fmt, cells[k])
  }

  /** A row that reads back: safe fields, and a last cell, written bare, with a plain description. */
  predicate WritableRow(fmt: Format, row: seq<Cell>)
  {
    |row| > 0 && SafeFields(fmt, row[..|row| - 1]) && AllPlain(DefaultConfig, Description(fmt.conv, row[|row| - 1]))
  }

  predicate WritableCells(fmt: Format, rows: seq<seq<Cell>>)
  {
    forall i :: 0 <= i < |rows| ==> WritableRow(fmt, rows[i])
  }

  lemma PlainIsQuotable(d: string)
    requires AllPlain(DefaultConfig, d)
    ensures Quotable(d)
  {
    forall k | 0 <= k < |d|
      ensures d[k] != '"' && d[k] != '\r'
    {
      assert Plain(DefaultConfig, d[k]);
    }
  }

  /**
   * Which fields the quoting rules make safe: a cell whose description
   * holds no quote and no carriage return is safe under AllFields, and so
   * is a text cell under AllTextFields and under NecessaryTextFields, which
   * wraps exactly the text that holds a separator.
   */
  lemma QuotingMakesSafe(fmt: Format, c: Cell)
    requires DefaultSeparators(fmt) && Quotable(Description(fmt.conv, c))
    requires fmt.rule.AllFields? || (IsText(c) && !fmt.rule.NoQuoting?)
    ensures SafeField(fmt, c)
  {
    var d := Description(fmt.conv, c);
    if fmt.rule.NecessaryTextFields? && ApplyQuotingRule(fmt, c) != Wrap(d) {
      assert !ContainsString(d, "\n") && !ContainsString(d, ",");
      forall k | 0 <= k < |d|
        ensures Plain(DefaultConfig, d[k])
      {
        CharOccurs(d, k);
      }
    }
  }

  /** Each character of a text occurs in it. */
  lemma CharOccurs(d: string, k: nat)
    requires k < |d|
    ensures ContainsString(d, [d[k]])
  {
    assert OccursAt(d, [d[k]], k);
  }

  /** Every cell is what its own description classifies as. */
  predicate StableCells(conv: Conversions, rows: seq<seq<Cell>>)
  {
    forall i, k :: 0 <= i < |rows| && 0 <= k < |rows[i]| ==> Classify(conv, Description(conv, rows[i][k])) == rows[i][k]
  }

  // ---------------------------------------------------------------------
  // Closed quotes in front of more text

  lemma {:induction false} PlainKeepsQuotesClosed(x: string, rest: string)
    requires AllPlain(DefaultConfig, x) && QuotesClosed(DefaultConfig, rest)
    ensures QuotesClosed(DefaultConfig, x + rest)
    decreases |x|
  {
    if x != [] {
      var u := x + rest;
      assert u[0] == x[0] && u[1..] == x[1..] + rest;
      assert Plain(DefaultConfig, x[0]);
      assert AllPlain(DefaultConfig, x[1..]) by {
        forall k | 0 <= k < |x| - 1
          ensures Plain(DefaultConfig, x[1..][k])
        {
          assert x[1..][k] == x[k + 1];
        }
      }
      PlainKeepsQuotesClosed(x[1..], rest);
    } else {
      assert x + rest == rest;
    }
  }

  lemma WrapKeepsQuotesClosed(d: string, rest: string)
    requires Quotable(d) && QuotesClosed(DefaultConfig, rest)
    ensures QuotesClosed(DefaultConfig, Wrap(d) + rest)
  {
    var u := Wrap(d) + rest;
    assert u[0] == '"' && u[1..] == d + ['"'] + rest;
    QuoteLenIs(DefaultConfig.quoteCharacters, u[1..], |d|);
    assert u[|d| + 2..] == rest;
  }

  // ---------------------------------------------------------------------
  // Scanning the written text, piece by piece

  /** A quoted description in front of a row that starts with an empty cell fills that cell. */
  lemma WrappedOnto(d: string, rest: string, row: seq<string>, more: seq<seq<string>>)
    requires Quotable(d) && Split(DefaultConfig, rest) == [[""] + row] + more
    ensures Split(DefaultConfig, Wrap(d) + rest) == [[d] + row] + more
    ensures '\r' !in Wrap(d)
    ensures QuotesClosed(DefaultConfig, rest) ==> QuotesClosed(DefaultConfig, Wrap(d) + rest)
  {
    SplitQuotedOnto(DefaultConfig, '"', d, '"', rest);
    assert Wrap(d) + rest == ['"'] + d + ['"'] + rest;
    PrependOnto(d, "", row, more);
    assert d + "" == d;
    if QuotesClosed(DefaultConfig, rest) {
      WrapKeepsQuotesClosed(d, rest);
    }
  }

  /** A bare description in front of a row that starts with an empty cell fills that cell. */
  lemma BareOnto(d: string, rest: string, row: seq<string>, more: seq<seq<string>>)
    requires AllPlain(DefaultConfig, d) && Split(DefaultConfig, rest) == [[""] + row] + more
    ensures Split(DefaultConfig, d + rest) == [[d] + row] + more
    ensures '\r' !in d
    ensures QuotesClosed(DefaultConfig, rest) ==> QuotesClosed(DefaultConfig, d + rest)
  {
    SplitPlain(DefaultConfig, d, rest);
    PrependOnto(d, "", row, more);
    assert d + "" == d;
    if QuotesClosed(DefaultConfig, rest) {
      PlainKeepsQuotesClosed(d, rest);
    }
  }

  /** One leading field: the scan finds its description as the first cell of what follows. */
  lemma FieldOnto(fmt: Format, c: Cell, tail: string, row: seq<string>, more: seq<seq<string>>)
    requires DefaultSeparators(fmt) && SafeField(fmt, c)
    requires Split(DefaultConfig, tail) == [row] + more
    ensures var s := ApplyQuotingRule(fmt, c) + fmt.valueSeparator + tail;
      Split(DefaultConfig, s) == [[Description(fmt.conv, c)] + row] + more
      && '\r' !in ApplyQuotingRule(fmt, c) + fmt.valueSeparator
      && (QuotesClosed(DefaultConfig, tail) ==> QuotesClosed(DefaultConfig, s))
  {
    var d := Description(fmt.conv, c);
    var f := ApplyQuotingRule(fmt, c);
    var vt := [','] + tail;
    ConcatAssoc(f, fmt.valueSeparator, tail);
    SplitValueOnto(DefaultConfig, ',', tail, row, more);
    assert QuotesClosed(DefaultConfig, tail) ==> QuotesClosed(DefaultConfig, vt);
    QuotedOrBare(fmt, c);
    if f == Wrap(d) {
      if AllPlain(DefaultConfig, d) {
        PlainIsQuotable(d);
      }
      WrappedOnto(d, vt, row, more);
    } else {
      assert |Wrap(d)| != |d|;
      BareOnto(d, vt, row, more);
    }
  }

  /** Splitting off the last cell of a row. */
  lemma RowParts(fmt: Format, cells: seq<Cell>)
    requires |cells| > 0
    ensures var init, last := cells[..|cells| - 1], cells[|cells| - 1];
      (SafeFields(fmt, cells) ==> SafeFields(fmt, init) && SafeField(fmt, last))
      && DescribeRow(fmt.conv, init) + [Description(fmt.conv, last)] == DescribeRow(fmt.conv, cells)
  {
  }

  /** The last cell and the row separator close a row of one cell. */
  lemma LastCellOnto(d: string, rest: string)
    requires AllPlain(DefaultConfig, d)
    ensures Split(DefaultConfig, d + ['\n'] + rest) == [[d]] + Split(DefaultConfig, rest)
    ensures QuotesClosed(DefaultConfig, rest) ==> QuotesClosed(DefaultConfig, d + ['\n'] + rest)
  {
    var cfg := DefaultConfig;
    var nr := ['\n'] + rest;
    assert d + ['\n'] + rest == d + nr;
    assert nr[0] == '\n' && nr[1..] == rest;
    SplitRowSeparator(cfg, nr);
    var t := [[""]] + Split(cfg, rest);
    assert t[0][0] == "" && t[0][1..] == [] && t[1..] == Split(cfg, rest);
    SplitPlain(cfg, d, nr);
    assert d + "" == d && [d] + [] == [d];
    if QuotesClosed(cfg, rest) {
      assert QuotesClosed(cfg, nr);
      PlainKeepsQuotesClosed(d, nr);
    }
  }

  lemma FieldsStep(fmt: Format, cells: seq<Cell>, tail: string)
    requires |cells| > 0
    ensures var last := cells[|cells| - 1];
      Fields(fmt, cells) + tail == Fields(fmt, cells[..|cells| - 1]) + (ApplyQuotingRule(fmt, last) + fmt.valueSeparator + tail)
  {
  }

  lemma DescribeStep(conv: Conversions, cells: seq<Cell>, row: seq<string>)
    requires |cells| > 0
    ensures DescribeRow(conv, cells[..|cells| - 1]) + ([Description(conv, cells[|cells| - 1])] + row) == DescribeRow(conv, cells) + row
  {
    RowParts(Format(conv, NoQuoting, "", ""), cells);
  }

  /** The leading fields of a row: their descriptions, in order, in front of the first cell of what follows. */
  lemma {:induction false} FieldsOnto(fmt: Format, cells: seq<Cell>, tail: string, row: seq<string>, more: seq<seq<string>>)
    requires DefaultSeparators(fmt) && SafeFields(fmt, cells)
    requires Split(DefaultConfig, tail) == [row] + more
    ensures Split(DefaultConfig, Fields(fmt, cells) + tail) == [DescribeRow(fmt.conv, cells) + row] + more
    ensures '\r' !in Fields(fmt, cells)
    ensures QuotesClosed(DefaultConfig, tail) ==> QuotesClosed(DefaultConfig, Fields(fmt, cells) + tail)
    decreases |cells|
  {
    if cells == [] {
      assert Fields(fmt, cells) + tail == tail;
      assert DescribeRow(fmt.conv, cells) + row == row;
    } else {
      var init, last := cells[..|cells| - 1], cells[|cells| - 1];
      var d := Description(fmt.conv, last);
      var piece := ApplyQuotingRule(fmt, last) + fmt.valueSeparator;
      var tail' := piece + tail;
      RowParts(fmt, cells);
      FieldsStep(fmt, cells, tail);
      DescribeStep(fmt.conv, cells, row);
      FieldOnto(fmt, last, tail, row, more);
      FieldsOnto(fmt, init, tail', [d] + row, more);
    }
  }

  /** A whole row and its row separator: one row of descriptions in front of the rows that follow. */
  lemma RowOnto(fmt: Format, cells: seq<Cell>, rest: string)
    requires DefaultSeparators(fmt) && WritableRow(fmt, cells)
    ensures Split(DefaultConfig, RowText(fmt, cells) + rest) == [DescribeRow(fmt.conv, cells)] + Split(DefaultConfig, rest)
    ensures '\r' !in RowText(fmt, cells)
    ensures QuotesClosed(DefaultConfig, rest) ==> QuotesClosed(DefaultConfig, RowText(fmt, cells) + rest)
  {
    var init, last := cells[..|cells| - 1], cells[|cells| - 1];
    var d := Description(fmt.conv, last);
    RowParts(fmt, cells);
    assert RowText(fmt, cells) + rest == Fields(fmt, init) + (d + ['\n'] + rest);
    assert [DescribeRow(fmt.conv, init) + [d]] == [DescribeRow(fmt.conv, cells)];
    LastCellOnto(d, rest);
    FieldsOnto(fmt, init, d + ['\n'] + rest, [d], Split(DefaultConfig, rest));
  }

  lemma TableParts(fmt: Format, rows: seq<seq<Cell>>, tail: seq<seq<string>>)
    requires |rows| > 0
    ensures var init, last := rows[..|rows| - 1], rows[|rows| - 1];
      (RowsNonEmpty(rows) ==> RowsNonEmpty(init) && |last| > 0)
      && (WritableCells(fmt, rows) ==> WritableCells(fmt, init) && WritableRow(fmt, last))
      && DescribeTable(fmt.conv, init) + ([DescribeRow(fmt.conv, last)] + tail) == DescribeTable(fmt.conv, rows) + tail
  {
    var init, last := rows[..|rows| - 1], rows[|rows| - 1];
    assert DescribeTable(fmt.conv, init) + [DescribeRow(fmt.conv, last)] == DescribeTable(fmt.conv, rows);
  }

  lemma SerializeStep(fmt: Format, rows: seq<seq<Cell>>, tail: string)
    requires |rows| > 0 && RowsNonEmpty(rows)
    ensures RowsNonEmpty(rows[..|rows| - 1])
    ensures Serialize(fmt, rows) + tail == Serialize(fmt, rows[..|rows| - 1]) + (RowText(fmt, rows[|rows| - 1]) + tail)
  {
    assert RowsNonEmpty(rows[..|rows| - 1]);
  }

  /** The written rows: their descriptions, row by row, in front of the rows of what follows. */
  lemma {:induction false} SerializeOnto(fmt: Format, rows: seq<seq<Cell>>, tail: string)
    requires DefaultSeparators(fmt) && RowsNonEmpty(rows) && WritableCells(fmt, rows)
    ensures Split(DefaultConfig, Serialize(fmt, rows) + tail) == DescribeTable(fmt.conv, rows) + Split(DefaultConfig, tail)
    ensures '\r' !in Serialize(fmt, rows)
    ensures QuotesClosed(DefaultConfig, tail) ==> QuotesClosed(DefaultConfig, Serialize(fmt, rows) + tail)
    decreases |rows|
  {
    if rows == [] {
      assert Serialize(fmt, rows) + tail == tail;
      assert DescribeTable(fmt.conv, rows) + Split(DefaultConfig, tail) == Split(DefaultConfig, tail);
    } else {
      var init, last := rows[..|rows| - 1], rows[|rows| - 1];
      TableParts(fmt, rows, Split(DefaultConfig, tail));
      SerializeStep(fmt, rows, tail);
      RowOnto(fmt, last, tail);
      SerializeOnto(fmt, init, RowText(fmt, last) + tail);
    }
  }

  /**
   * `stringRepresentation` with the default separators, scanned with the
   * default settings: one row of descriptions per written row, then the
   * single empty cell after the final row separator. The text has every
   * quoted span closed and no carriage return for the CRLF step to change.
   */
  lemma WrittenTextScans(fmt: Format, rows: seq<seq<Cell>>)
    requires DefaultSeparators(fmt) && RowsNonEmpty(rows) && WritableCells(fmt, rows)
    ensures var text := Serialize(fmt, rows);
      Split(DefaultConfig, text) == DescribeTable(fmt.conv, rows) + [[""]]
      && ReplaceCRLF(text, '\n') == text && QuotesClosed(DefaultConfig, text)
  {
    var text := Serialize(fmt, rows);
    SerializeOnto(fmt, rows, "");
    EmptyText(DefaultConfig);
    assert text + "" == text;
    ReplaceCRLFWithoutCR(text, '\n');
  }

  /** Cells that classify back as themselves: classifying the descriptions gives the table. */
  lemma ClassifyDescribed(conv: Conversions, rows: seq<seq<Cell>>)
    requires StableCells(conv, rows)
    ensures ClassifyTable(conv, DescribeTable(conv, rows)) == rows
  {
    var c := ClassifyTable(conv, DescribeTable(conv, rows));
    forall i | 0 <= i < |rows|
      ensures c[i] == rows[i]
    {
      assert c[i] == ClassifyRow(conv, DescribeRow(conv, rows[i]));
    }
  }

  /** The rows of the right width, classified: the table, and its trailing empty row only when the width is 1. */
  lemma KeptAfterWriting(conv: Conversions, rows: seq<seq<Cell>>, w: nat)
    requires |rows| > 0 && Rectangular(rows, w) && StableCells(conv, rows)
    ensures var t := DescribeTable(conv, rows) + [[""]];
      IsTable(t) ==> KeepWidth(ClassifyTable(conv, t), w) == rows + (if w == 1 then [[Empty]] else [])
  {
    var d := DescribeTable(conv, rows);
    ClassifyTableAppend(conv, d, [""]);
    ClassifyDescribed(conv, rows);
    assert ClassifyRow(conv, [""]) == [Empty];
    KeepWidthAppend(rows, [Empty], w);
    KeepWidthRectangular(rows, w);
  }

  /** Trimming leaves a table whose first and last rows are not blank, after a blank row of its width is dropped. */
  lemma TrimAfterWriting(rows: seq<seq<Cell>>, w: nat)
    requires |rows| > 0 && !AllEmpty(rows[0]) && !AllEmpty(rows[|rows| - 1])
    ensures var k := rows + (if w == 1 then [[Empty]] else []);
      Trimmable(k) && TrimEdges(k) == rows
  {
    var k := rows + (if w == 1 then [[Empty]] else []);
    assert k[0] == rows[0];
    if w == 1 {
      assert k[..|k| - 1] == rows && AllEmpty(k[|k| - 1]);
    } else {
      assert k == rows;
    }
  }

  lemma ScannedIsTable(conv: Conversions, rows: seq<seq<Cell>>, w: nat)
    requires |rows| > 0 && w > 0 && Rectangular(rows, w)
    ensures var t := DescribeTable(conv, rows) + [[""]];
      IsTable(t) && |t[0]| == w
  {
    var t := DescribeTable(conv, rows) + [[""]];
    assert t[0] == DescribeRow(conv, rows[0]);
    forall i | 0 <= i < |t|
      ensures |t[i]| > 0
    {
      if i < |rows| {
        assert t[i] == DescribeRow(conv, rows[i]);
      }
    }
  }

  /** What the collector makes of the scanned text: the written table, with its width. */
  lemma CollectAfterWriting(conv: Conversions, rows: seq<seq<Cell>>, w: nat)
    requires |rows| > 0 && w > 0 && Rectangular(rows, w) && StableCells(conv, rows)
    requires !AllEmpty(rows[0]) && !AllEmpty(rows[|rows| - 1])
    ensures var t := DescribeTable(conv, rows) + [[""]];
      IsTable(t) && Collected(conv, t) == Some(CollectorState(rows, w, [Empty]))
  {
    ScannedIsTable(conv, rows, w);
    KeptAfterWriting(conv, rows, w);
    TrimAfterWriting(rows, w);
  }

  /**
   * A table written with the default separators and read back by
   * `init(fromString:)` is the same table with the same width, provided
   * every field survives the scan (see `QuotingMakesSafe` for the text cells
   * the quoting rules protect), every description classifies back as its
   * cell, and
   * the first and last rows are not blank (the collector drops a blank edge
   * row).
   */
  lemma ReadBack(fmt: Format, rows: seq<seq<Cell>>, w: nat)
    requires DefaultSeparators(fmt) && |rows| > 0 && w > 0 && Rectangular(rows, w)
    requires WritableCells(fmt, rows) && StableCells(fmt.conv, rows)
    requires !AllEmpty(rows[0]) && !AllEmpty(rows[|rows| - 1])
    ensures RowsNonEmpty(rows)
    ensures QuotesClosed(DefaultConfig, ReplaceCRLF(Serialize(fmt, rows), '\n'))
    ensures Load(fmt.conv, Serialize(fmt, rows)) == Some(CollectorState(rows, w, [Empty]))
  {
    var conv := fmt.conv;
    assert RowsNonEmpty(rows);
    var text := Serialize(fmt, rows);
    WrittenTextScans(fmt, rows);
    CollectAfterWriting(conv, rows, w);
    assert Load(conv, text) == Collected(conv, DescribeTable(conv, rows) + [[""]]);
  }
}
