// The event collector of the ABCSV library: a delegate of the scanner that
// turns its event stream into a table of classified cells. It fixes the
// table width from row 0, drops later rows of any other width, and at the
// end of the document removes a blank last row and then a blank first row.

module CsvCollector {
  import opened CsvCell
  import opened CsvParser

  /** Everything the collector keeps between two events. */
  datatype CollectorState = CollectorState(contents: seq<seq<Cell>>, columns: nat, currentRow: seq<Cell>)

  /** A fresh collector: a 1x1 table holding `Empty`, and a one-cell current row. */
  function Init(): (st: CollectorState)
    ensures |st.contents| == 1 && st.contents[0] == st.currentRow == [Empty]
  {
    CollectorState([[Empty]], 1, [Empty])
  }

  /** Every cell of the row is `Empty` (vacuously so for a row with no cells). */
  predicate AllEmpty(row: seq<Cell>)
  {
    forall k :: 0 <= k < |row| ==> row[k] == Empty
  }

  // ---------------------------------------------------------------------
  // Trimming at the end of the document

  /**
   * The end-of-document trimming reads the last row and, after removing it
   * when blank, the first row; both reads trap on a table with no rows.
   */
  predicate Trimmable(c: seq<seq<Cell>>)
  {
    |c| > 0 && !(|c| == 1 && AllEmpty(c[0]))
  }

  /**
   * A blank last row is removed, then a blank first row: at most one row at
   * each end, and the kept rows are a contiguous window of the table.
   */
  function TrimEdges(c: seq<seq<Cell>>): (r: seq<seq<Cell>>)
    requires Trimmable(c)
    ensures |r| <= |c| <= |r| + 2
    ensures r == c[..|r|] || (|r| < |c| && r == c[1..|r| + 1])
    ensures !AllEmpty(c[0]) ==> r == c[..|r|] && |r| > 0
    ensures !AllEmpty(c[|c| - 1]) ==> r == c[|c| - |r|..] && |r| > 0
    ensures AllEmpty(c[|c| - 1]) ==> (r == c[..|r|] && |r| < |c|) || (|r| + 1 < |c| && r == c[1..|r| + 1])
    ensures AllEmpty(c[0]) && |c| > 1 ==> |r| < |c| && r == c[1..|r| + 1]
    ensures !AllEmpty(c[0]) && !AllEmpty(c[|c| - 1]) ==> r == c
    ensures !AllEmpty(c[0]) && AllEmpty(c[|c| - 1]) ==> r == c[..|c| - 1]
    ensures AllEmpty(c[0]) && !AllEmpty(c[|c| - 1]) ==> r == c[1..]
    ensures AllEmpty(c[0]) && AllEmpty(c[|c| - 1]) ==> |c| >= 2 && r == c[1..|c| - 1]
  {
    var a := if AllEmpty(c[|c| - 1]) then c[..|c| - 1] else c;
    assert |a| > 0 && a[0] == c[0];
    if AllEmpty(a[0]) then a[1..] else a
  }

  // ---------------------------------------------------------------------
  // The collector as a function of its state and one event

  /**
   * The state after one event, or `None` where the source traps: writing
   * cell 0 of an empty current row, or trimming a table that `Trimmable`
   * rejects.
   */
  function Step(conv: Conversions, st: CollectorState, e: Event): Option<CollectorState>
  {
    match e
    case DidStartDocument => Some(st.(currentRow := [Empty]))
    case DidStartRow(_) => Some(st)
    case FoundCell(text, _, column) =>
      if column == 0 then
        if |st.currentRow| == 0 then None
        else Some(st.(currentRow := st.currentRow[0 := Classify(conv, text)]))
      else Some(st.(currentRow := st.currentRow + [Classify(conv, text)]))
    case DidEndRow(row, columnCount) =>
      if row == 0 then Some(CollectorState([st.currentRow], columnCount, [Empty]))
      else if |st.currentRow| == st.columns then
        Some(CollectorState(st.contents + [st.currentRow], st.columns, [Empty]))
      else Some(st.(currentRow := [Empty]))
    case DidEndDocument =>
      if Trimmable(st.contents) then Some(st.(contents := TrimEdges(st.contents))) else None
  }

  /** The state after a stream of events, or `None` if one of them traps. */
  function Replay(conv: Conversions, st: CollectorState, es: seq<Event>): Option<CollectorState>
    decreases |es|
  {
    if es == [] then Some(st)
    else match Step(conv, st, es[0])
      case None => None
      case Some(st') => Replay(conv, st', es[1..])
  }

  lemma {:induction false} ReplayAppend(conv: Conversions, st: CollectorState, a: seq<Event>, b: seq<Event>)
    ensures Replay(conv, st, a + b) ==
      match Replay(conv, st, a)
      case None => None
      case Some(st') => Replay(conv, st', b)
    decreases |a|
  {
    if a == [] {
      assert a + b == b;
    } else {
      assert (a + b)[0] == a[0] && (a + b)[1..] == a[1..] + b;
      match Step(conv, st, a[0])
      case None =>
      case Some(st') => ReplayAppend(conv, st', a[1..], b);
    }
  }

  lemma ReplayOne(conv: Conversions, st: CollectorState, e: Event)
    ensures Replay(conv, st, [e]) == Step(conv, st, e)
  {
    assert [e][1..] == [];
  }

  /**
   * Partway through a stream that replays without trapping, the next event
   * does not trap either, and one more event is one more step.
   */
  lemma ReplayResumes(conv: Conversions, st0: CollectorState, es: seq<Event>, i: nat, st: CollectorState)
    requires i < |es| && Replay(conv, st0, es[..i]) == Some(st) && Replay(conv, st0, es).Some?
    ensures Step(conv, st, es[i]).Some?
    ensures Replay(conv, st0, es[..i + 1]) == Step(conv, st, es[i])
  {
    assert es == es[..i] + es[i..];
    ReplayAppend(conv, st0, es[..i], es[i..]);
    assert es[i..][0] == es[i];
    assert es[..i + 1] == es[..i] + [es[i]];
    ReplayAppend(conv, st0, es[..i], [es[i]]);
    ReplayOne(conv, st, es[i]);
  }

  // ---------------------------------------------------------------------
  // What the collector makes of a whole table

  function ClassifyRow(conv: Conversions, cells: seq<string>): (row: seq<Cell>)
    ensures |row| == |cells|
    ensures forall k :: 0 <= k < |cells| ==> row[k] == Classify(conv, cells[k])
  {
    seq(|cells|, k requires 0 <= k < |cells| => Classify(conv, cells[k]))
  }

  function ClassifyTable(conv: Conversions, t: seq<seq<string>>): (rows: seq<seq<Cell>>)
    ensures |rows| == |t|
    ensures forall i :: 0 <= i < |t| ==> rows[i] == ClassifyRow(conv, t[i])
  {
    seq(|t|, i requires 0 <= i < |t| => ClassifyRow(conv, t[i]))
  }

  /** The rows of width `w`, in order. */
  function KeepWidth(rows: seq<seq<Cell>>, w: nat): (k: seq<seq<Cell>>)
    ensures |k| <= |rows|
    ensures forall i :: 0 <= i < |k| ==> |k[i]| == w
    decreases |rows|
  {
    if rows == [] then []
    else KeepWidth(rows[..|rows| - 1], w) + (if |rows[|rows| - 1]| == w then [rows[|rows| - 1]] else [])
  }

  /** A row survives the width filter exactly when it has the width. */
  lemma {:induction false} KeepWidthMembers(rows: seq<seq<Cell>>, w: nat, row: seq<Cell>)
    ensures row in KeepWidth(rows, w) <==> row in rows && |row| == w
    decreases |rows|
  {
    if rows != [] {
      var init, last := rows[..|rows| - 1], rows[|rows| - 1];
      KeepWidthMembers(init, w, row);
      assert rows == init + [last];
      assert row in rows <==> row in init || row == last;
    }
  }

  /** A rectangular table passes the width filter untouched. */
  lemma {:induction false} KeepWidthRectangular(rows: seq<seq<Cell>>, w: nat)
    requires forall i :: 0 <= i < |rows| ==> |rows[i]| == w
    ensures KeepWidth(rows, w) == rows
    decreases |rows|
  {
    if rows != [] {
      KeepWidthRectangular(rows[..|rows| - 1], w);
      assert rows[..|rows| - 1] + [rows[|rows| - 1]] == rows;
    }
  }

  /**
   * What collecting a table yields: its cells classified, the rows whose
   * width differs from row 0 dropped, blank edge rows trimmed; `None` where
   * the trimming traps.
   */
  function Collected(conv: Conversions, t: seq<seq<string>>): Option<CollectorState>
    requires IsTable(t)
  {
    var k := KeepWidth(ClassifyTable(conv, t), |t[0]|);
    if Trimmable(k) then Some(CollectorState(TrimEdges(k), |t[0]|, [Empty])) else None
  }

  // ---------------------------------------------------------------------
  // Replaying the scanner's events

  lemma ClassifyRowAppend(conv: Conversions, init: seq<string>, x: string)
    ensures ClassifyRow(conv, init + [x]) == ClassifyRow(conv, init) + [Classify(conv, x)]
  {
  }

  /** One cell event: cell 0 overwrites the first cell of the current row, any other is appended. */
  lemma ReplayCell(conv: Conversions, st: CollectorState, x: string, row: nat, column: nat)
    requires |st.currentRow| > 0
    ensures var c := Classify(conv, x);
      Replay(conv, st, [FoundCell(x, row, column)]) ==
        Some(st.(currentRow := if column == 0 then st.currentRow[0 := c] else st.currentRow + [c]))
  {
    ReplayOne(conv, st, FoundCell(x, row, column));
  }

  /** The cell events of a row build the classified row in `currentRow`. */
  lemma {:induction false} ReplayCells(conv: Conversions, st: CollectorState, cells: seq<string>, row: nat)
    requires st.currentRow == [Empty] && cells != []
    ensures Replay(conv, st, CellEvents(cells, row)) == Some(st.(currentRow := ClassifyRow(conv, cells)))
    decreases |cells|
  {
    var init, x := cells[..|cells| - 1], cells[|cells| - 1];
    assert cells == init + [x];
    if init == [] {
      ReplayFirstCell(conv, st, x, row);
    } else {
      ReplayCells(conv, st, init, row);
      ReplayNextCell(conv, st, init, x, row);
    }
  }

  lemma ReplayFirstCell(conv: Conversions, st: CollectorState, x: string, row: nat)
    requires st.currentRow == [Empty]
    ensures Replay(conv, st, CellEvents([x], row)) == Some(st.(currentRow := ClassifyRow(conv, [x])))
  {
    assert CellEvents([x], row) == [FoundCell(x, row, 0)];
    ReplayCell(conv, st, x, row, 0);
    assert [Empty][0 := Classify(conv, x)] == ClassifyRow(conv, [x]);
  }

  lemma ReplayNextCell(conv: Conversions, st: CollectorState, init: seq<string>, x: string, row: nat)
    requires init != [] && Replay(conv, st, CellEvents(init, row)) == Some(st.(currentRow := ClassifyRow(conv, init)))
    ensures Replay(conv, st, CellEvents(init + [x], row)) == Some(st.(currentRow := ClassifyRow(conv, init + [x])))
  {
    var e := FoundCell(x, row, |init|);
    CellEventsAppend(init, x, row);
    ClassifyRowAppend(conv, init, x);
    ReplayAppend(conv, st, CellEvents(init, row), [e]);
    ReplayCell(conv, st.(currentRow := ClassifyRow(conv, init)), x, row, |init|);
  }

  /** One row of events: row 0 starts the table, later rows join it if they fit. */
  lemma ReplayRow(conv: Conversions, st: CollectorState, cells: seq<string>, row: nat)
    requires st.currentRow == [Empty] && cells != []
    ensures var r := ClassifyRow(conv, cells);
      Replay(conv, st, RowBlock(cells, row)) ==
        if row == 0 then Some(CollectorState([r], |cells|, [Empty]))
        else if |cells| == st.columns then Some(CollectorState(st.contents + [r], st.columns, [Empty]))
        else Some(st)
  {
    var st' := st.(currentRow := ClassifyRow(conv, cells));
    ReplayRowEvents(conv, st, cells, row);
    ReplayOne(conv, st', DidEndRow(row, |cells|));
  }

  lemma ReplayRowEvents(conv: Conversions, st: CollectorState, cells: seq<string>, row: nat)
    requires st.currentRow == [Empty] && cells != []
    ensures Replay(conv, st, RowBlock(cells, row)) ==
      Replay(conv, st.(currentRow := ClassifyRow(conv, cells)), [DidEndRow(row, |cells|)])
  {
    var es := CellEvents(cells, row);
    var rest := es + [DidEndRow(row, |cells|)];
    assert RowBlock(cells, row) == [DidStartRow(row)] + rest;
    assert Replay(conv, st, [DidStartRow(row)] + rest) == Replay(conv, st, rest) by {
      assert ([DidStartRow(row)] + rest)[1..] == rest;
    }
    ReplayCells(conv, st, cells, row);
    ReplayAppend(conv, st, es, [DidEndRow(row, |cells|)]);
  }

  /** The row events of a whole table leave the width-filtered classified table. */
  lemma {:induction false} ReplayBlocks(conv: Conversions, st: CollectorState, t: seq<seq<string>>)
    requires IsTable(t) && st.currentRow == [Empty]
    ensures Replay(conv, st, Blocks(t)) ==
      Some(CollectorState(KeepWidth(ClassifyTable(conv, t), |t[0]|), |t[0]|, [Empty]))
    decreases |t|
  {
    var init, cells := t[..|t| - 1], t[|t| - 1];
    assert t == init + [cells];
    if init == [] {
      ReplayFirstRow(conv, st, cells);
    } else {
      ReplayBlocks(conv, st, init);
      ReplayNextRow(conv, st, init, cells);
    }
  }

  lemma ReplayFirstRow(conv: Conversions, st: CollectorState, cells: seq<string>)
    requires st.currentRow == [Empty] && cells != []
    ensures Replay(conv, st, Blocks([cells])) ==
      Some(CollectorState(KeepWidth(ClassifyTable(conv, [cells]), |cells|), |cells|, [Empty]))
  {
    var rows := ClassifyTable(conv, [cells]);
    assert rows == [ClassifyRow(conv, cells)];
    assert KeepWidth(rows, |cells|) == rows by {
      assert rows[..0] == [];
    }
    assert Blocks([cells]) == RowBlock(cells, 0) by {
      assert [cells][..0] == [];
    }
    ReplayRow(conv, st, cells, 0);
  }

  lemma ReplayNextRow(conv: Conversions, st: CollectorState, init: seq<seq<string>>, cells: seq<string>)
    requires IsTable(init) && cells != []
    requires Replay(conv, st, Blocks(init)) ==
      Some(CollectorState(KeepWidth(ClassifyTable(conv, init), |init[0]|), |init[0]|, [Empty]))
    ensures var t := init + [cells];
      Replay(conv, st, Blocks(t)) ==
        Some(CollectorState(KeepWidth(ClassifyTable(conv, t), |init[0]|), |init[0]|, [Empty]))
  {
    var t := init + [cells];
    var n, w := |init|, |init[0]|;
    var r := ClassifyRow(conv, cells);
    var before := KeepWidth(ClassifyTable(conv, init), w);
    var after := KeepWidth(ClassifyTable(conv, t), w);
    KeepClassifiedAppend(conv, init, cells, w);
    var mid := CollectorState(before, w, [Empty]);
    assert Replay(conv, st, Blocks(t)) == Replay(conv, mid, RowBlock(cells, n)) by {
      BlocksAppend(init, cells);
      ReplayAppend(conv, st, Blocks(init), RowBlock(cells, n));
    }
    ReplayRow(conv, mid, cells, n);
    if |cells| != w {
      assert after == before;
    }
  }

  /** Classifying and filtering a table one row longer extends the earlier result by at most that row. */
  lemma KeepClassifiedAppend(conv: Conversions, init: seq<seq<string>>, cells: seq<string>, w: nat)
    ensures KeepWidth(ClassifyTable(conv, init + [cells]), w) ==
      KeepWidth(ClassifyTable(conv, init), w) + (if |cells| == w then [ClassifyRow(conv, cells)] else [])
  {
    ClassifyTableAppend(conv, init, cells);
    KeepWidthAppend(ClassifyTable(conv, init), ClassifyRow(conv, cells), w);
  }

  lemma ClassifyTableAppend(conv: Conversions, init: seq<seq<string>>, cells: seq<string>)
    ensures ClassifyTable(conv, init + [cells]) == ClassifyTable(conv, init) + [ClassifyRow(conv, cells)]
  {
  }

  lemma KeepWidthAppend(rows: seq<seq<Cell>>, r: seq<Cell>, w: nat)
    ensures KeepWidth(rows + [r], w) == KeepWidth(rows, w) + (if |r| == w then [r] else [])
  {
    assert (rows + [r])[..|rows|] == rows;
  }


  /**
   * Fed the scanner's complete event stream for a table, the collector ends
   * with exactly `Collected`, and traps exactly where `Collected` is `None`.
   */
  lemma ReplayTrace(conv: Conversions, t: seq<seq<string>>)
    requires IsTable(t)
    ensures Replay(conv, Init(), Trace(t)) == Collected(conv, t)
  {
    var st := Init().(currentRow := [Empty]);
    var k := KeepWidth(ClassifyTable(conv, t), |t[0]|);
    var mid := CollectorState(k, |t[0]|, [Empty]);
    assert Trace(t) == [DidStartDocument] + (Blocks(t) + [DidEndDocument]);
    ReplayAppend(conv, st, Blocks(t), [DidEndDocument]);
    ReplayBlocks(conv, st, t);
    assert Replay(conv, mid, [DidEndDocument]) == Step(conv, mid, DidEndDocument);
  }

  /** Every collected row has the width of row 0. */
  lemma CollectedRectangular(conv: Conversions, t: seq<seq<string>>)
    requires IsTable(t) && Collected(conv, t).Some?
    ensures var st := Collected(conv, t).value;
      st.columns == |t[0]| && forall i :: 0 <= i < |st.contents| ==> |st.contents[i]| == st.columns
  {
    var k := KeepWidth(ClassifyTable(conv, t), |t[0]|);
    var r := TrimEdges(k);
    forall i | 0 <= i < |r|
      ensures |r[i]| == |t[0]|
    {
      if r == k[..|r|] {
        assert r[i] == k[i];
      } else {
        assert r[i] == k[i + 1];
      }
    }
  }

  /** A classified row is blank exactly when every one of its texts is whitespace. */
  lemma BlankRow(conv: Conversions, cells: seq<string>)
    ensures AllEmpty(ClassifyRow(conv, cells)) <==> forall k :: 0 <= k < |cells| ==> AllWhitespace(cells[k])
  {
    var row := ClassifyRow(conv, cells);
    if !AllEmpty(row) {
      var k :| 0 <= k < |row| && row[k] != Empty;
      assert row[k] == Classify(conv, cells[k]);
    }
  }

  /** A rectangular table with a non-blank first and last row is collected whole, only classified. */
  lemma RectangularCollectedWhole(conv: Conversions, t: seq<seq<string>>)
    requires IsTable(t) && forall i :: 0 <= i < |t| ==> |t[i]| == |t[0]|
    requires !AllWhitespace(t[0][0]) && !AllWhitespace(t[|t| - 1][0])
    ensures Collected(conv, t) == Some(CollectorState(ClassifyTable(conv, t), |t[0]|, [Empty]))
  {
    var rows := ClassifyTable(conv, t);
    var w := |t[0]|;
    forall i | 0 <= i < |rows|
      ensures |rows[i]| == w
    {
      assert rows[i] == ClassifyRow(conv, t[i]);
    }
    KeepWidthRectangular(rows, w);
    assert !AllEmpty(rows[0]) by {
      BlankRow(conv, t[0]);
    }
    assert !AllEmpty(rows[|t| - 1]) by {
      BlankRow(conv, t[|t| - 1]);
    }
    assert Trimmable(rows) && TrimEdges(rows) == rows;
  }

  /**
   * An input whose only row is blank (the empty input among them) makes the
   * end-of-document trimming read the first row of an empty table.
   */
  lemma BlankInputTraps(conv: Conversions, a: string)
    requires AllWhitespace(a)
    ensures Replay(conv, Init(), Trace([[a]])) == None
  {
    var t := [[a]];
    var rows := ClassifyTable(conv, t);
    BlankRow(conv, [a]);
    assert AllEmpty(rows[0]);
    KeepWidthRectangular(rows, 1);
    assert !Trimmable(rows);
    ReplayTrace(conv, t);
  }

  /**
   * A blank line before a wider header fixes the width at 1, so every wider
   * row is dropped and the blank rows trim down to a single `Empty` cell:
   * the scanner's table for "\n a,b,c\n1,2,3\n\n" is collected as [[Empty]].
   */
  lemma BlankFirstLineCollapses(conv: Conversions, a: string, r1: seq<string>, r2: seq<string>, b: string, c: string)
    requires AllWhitespace(a) && AllWhitespace(b) && AllWhitespace(c)
    requires |r1| > 1 && |r2| > 1
    ensures Collected(conv, [[a], r1, r2, [b], [c]]) == Some(CollectorState([[Empty]], 1, [Empty]))
  {
    var e: seq<Cell> := [Empty];
    BlankFirstLineKeeps(conv, a, r1, r2, b, c);
    assert TrimEdges([e, e, e]) == [e];
  }

  /** Only the three blank rows have the width of the first row. */
  lemma BlankFirstLineKeeps(conv: Conversions, a: string, r1: seq<string>, r2: seq<string>, b: string, c: string)
    requires AllWhitespace(a) && AllWhitespace(b) && AllWhitespace(c)
    requires |r1| > 1 && |r2| > 1
    ensures KeepWidth(ClassifyTable(conv, [[a], r1, r2, [b], [c]]), 1) == [[Empty], [Empty], [Empty]]
  {
    var e: seq<Cell> := [Empty];
    var t1: seq<seq<string>> := [[a]];
    var t2 := t1 + [r1];
    var t3 := t2 + [r2];
    var t4 := t3 + [[b]];
    var t5 := t4 + [[c]];
    assert t5 == [[a], r1, r2, [b], [c]];
    OneBlankCell(conv, a);
    OneBlankCell(conv, b);
    OneBlankCell(conv, c);
    assert KeepWidth(ClassifyTable(conv, t1), 1) == [e] by {
      var none: seq<seq<string>> := [];
      assert t1 == none + [[a]];
      KeepClassifiedAppend(conv, none, [a], 1);
    }
    KeepClassifiedAppend(conv, t1, r1, 1);
    KeepClassifiedAppend(conv, t2, r2, 1);
    assert KeepWidth(ClassifyTable(conv, t3), 1) == [e];
    KeepClassifiedAppend(conv, t3, [b], 1);
    KeepClassifiedAppend(conv, t4, [c], 1);
  }

  lemma OneBlankCell(conv: Conversions, a: string)
    requires AllWhitespace(a)
    ensures ClassifyRow(conv, [a]) == [Empty]
  {
  }

  // ---------------------------------------------------------------------
  // The collector object

  class Collector {
    const conv: Conversions
    var contents: seq<seq<Cell>>
    var columns: nat
    var currentRow: seq<Cell>

    function Current(): CollectorState
      reads this
    {
      CollectorState(contents, columns, currentRow)
    }

    /** The current row always has a cell 0 to overwrite. */
    predicate Valid()
      reads this
    {
      |currentRow| > 0
    }

    constructor(conv: Conversions)
      ensures Valid() && this.conv == conv && Current() == Init()
    {
      this.conv := conv;
      contents := [[Empty]];
      columns := 1;
      currentRow := [Empty];
    }

    method DidStartDocument()
      modifies this`currentRow
      ensures Valid() && currentRow == [Empty]
    {
      currentRow := [Empty];
    }

    method DidStartRow(row: nat)
      ensures Current() == old(Current())
    {
    }

    method FoundCell(text: string, row: nat, column: nat)
      requires Valid()
      modifies this`currentRow
      ensures Valid()
      ensures column == 0 ==> currentRow == old(currentRow)[0 := Classify(conv, text)]
      ensures column != 0 ==> currentRow == old(currentRow) + [Classify(conv, text)]
    {
      var cell := Classify(conv, text);
      if column == 0 {
        currentRow := currentRow[0 := cell];
      } else {
        currentRow := currentRow + [cell];
      }
    }

    method DidEndRow(row: nat, columnCount: nat)
      modifies this
      ensures Valid() && currentRow == [Empty]
      ensures row == 0 ==> contents == [old(currentRow)] && columns == columnCount
      ensures row != 0 ==> columns == old(columns)
      ensures row != 0 && |old(currentRow)| == old(columns) ==> contents == old(contents) + [old(currentRow)]
      ensures row != 0 && |old(currentRow)| != old(columns) ==> contents == old(contents)
    {
      if row == 0 {
        contents := [currentRow];
        columns := columnCount;
      } else if |currentRow| == columns {
        contents := contents + [currentRow];
      }
      currentRow := [Empty];
    }

    /** Trims the blank edge rows; the result is what the completion callback receives. */
    method DidEndDocument() returns (handedOver: seq<seq<Cell>>)
      requires Trimmable(contents)
      modifies this`contents
      ensures contents == TrimEdges(old(contents)) && handedOver == contents
    {
      if AllEmpty(contents[|contents| - 1]) {
        contents := contents[..|contents| - 1];
      }
      if AllEmpty(contents[0]) {
        contents := contents[1..];
      }
      handedOver := contents;
    }

    /** Dispatches one event to its handler. */
    method Handle(e: Event)
      requires Valid() && (e.DidEndDocument? ==> Trimmable(contents))
      modifies this
      ensures Valid() && Step(conv, old(Current()), e) == Some(Current())
    {
      match e
      case DidStartDocument => DidStartDocument();
      case DidStartRow(row) => DidStartRow(row);
      case FoundCell(text, row, column) => FoundCell(text, row, column);
      case DidEndRow(row, columnCount) => DidEndRow(row, columnCount);
      case DidEndDocument => var _ := DidEndDocument();
    }
  }
}
