# ABCSV in Dafny

A model of the core of ABCSV, a small Swift library that reads and writes
comma-separated text. It has four parts, which build on each other:

- **Cells** (`cell.dfy`, module `CsvCell`). The `ABCSVCell` variant has six cases: Header, Text, Integer, Decimal, Date and Empty.
  - `init(string:)` trims the text, then tries date, integer, decimal and text in that order.
  - Also modelled: `description`, `typeDescription`, `value`, `header`, `isHeader`, the literal conversions and `==`.
- **The tokenizer** (`parser.dfy`, module `CsvParser`, plus `scan_facts.dfy`, module `CsvScanFacts`). `ABCSVParser.parse` makes one pass over the characters and reports what it finds to a delegate.
  - The class `Parser` keeps the source's fields. The delegate calls become a `trace` of `Event` values.
  - `Parse` is proved to deliver exactly `Trace(Split(cfg, chars))`. `Split` is the table of raw cell texts, defined by recursion over the text. `Trace` is the event stream that reports a table row by row.
  - `CsvScanFacts` proves what that stream promises:
    - it is well nested;
    - it starts and ends with the expected events;
    - the cell texts are exactly the characters whose role is cell text, in order;
    - there is one cell more than there are separators outside quoted spans;
    - quoted separators are cell text.
- **The collector** (`collector.dfy`, module `CsvCollector`). `ABCSVParserCollector` is the delegate that builds the table.
  - The class `Collector` has one method per event. `Step` and `Replay` are the pure state machine the methods are proved against.
  - `ReplayTrace` says what replaying the parser's stream for a table yields. Row 0 fixes the width, rows of any other width are dropped, and at the end an all-Empty last row and then an all-Empty first row are trimmed.
- **The document** (`table.dfy` and `document.dfy`, modules `CsvTable` and `CsvDocument`). The class `ABCSV` becomes `Document`:
  - a rectangular `seq<seq<Cell>>` in place of the `ABMatrix`;
  - its constructors, with `init(fromString:)` running a `Parser` into a `Collector`;
  - `stringRepresentation` with the quoting rules;
  - the row and column operations, each specified by a function on the table with its own lemmas.

`roundtrip.dfy` (module `CsvRoundTrip`) proves that writing then reading gives the table back. This holds when:
- the default separators are used;
- the document's table is rectangular and non-empty;
- its first and last rows are not all Empty;
- every field survives the scan: the last cell of each row, which is written bare, holds no separator and no quote; any other cell either does the same or is written between quotes and holds no quote and no carriage return. The quoting rules wrap exactly such text cells when they hold a separator (`QuotingMakesSafe`);
- every cell classifies back to itself from its description.

Under those conditions, `init(fromString:)` of `stringRepresentation` yields the same table and width.

Quirks of the code that the contracts pin down:
- The last cell of every row is written bare, whatever the quoting rule (`LastCellNeverQuoted`).
- Any quote character closes a quoted span, whichever one opened it (`QuotedSeparatorsAreText`).
- `init(fromString:)` ignores its separator arguments (`Document.FromString`).
- Quotes inside a description are never escaped (`ApplyQuotingRule` wraps the bare description).
- A blank first line fixes the table width at 1 (`BlankFirstLineCollapses`).

An unclosed quoted span traps. `parseQuotedText` runs its inner loop to the end of the text and then steps past it with `successor()` at `endIndex` (Sources/ABCSVParser.swift:66, 106-110). So `Parse` requires every quoted span to be closed (`QuotesClosed`). `Split` on its own takes an unclosed span to the end of the text.

Foreign routines are parameters of the model, held in a `Conversions` value. These are the date parser, the `Double` parser, the `description`s of `Double` and `NSDate`, and `Double`'s `==`. `Int(_:)` and `Int.description` are modelled concretely: optional sign, ASCII digits, 64-bit range. Trimming uses Unicode's White_Space characters.

## Model

| member | source | states |
|---|---|---|
| CsvCell.Trim | Sources/ABCSVCell.swift:14 | the trimmed text is empty exactly when the input is all whitespace and newlines; otherwise it neither starts nor ends with such a character |
| CsvCell.TrimIdempotent | Sources/ABCSVCell.swift:14 | trimming twice is trimming once |
| CsvCell.TrimIgnoresPadding | Sources/ABCSVCell.swift:14 | whitespace added on either side does not change the trimmed text |
| CsvCell.ParseInt | Sources/ABCSVCell.swift:17 | `Int(_:)` accepts exactly an optional `+` or `-` followed by one or more digits whose signed value lies in the 64-bit range, and then yields that signed value; a digit string beyond the range gives nil |
| CsvCell.IntToString | Sources/ABCSVCell.swift:27 | `Int.description`: a minus sign exactly for negative numbers, then the digits of the magnitude without leading zeros |
| CsvCell.ParseIntRoundTrip | Sources/ABCSVCell.swift:17-27 | `Int(_:)` reads back every 64-bit integer's `description` |
| CsvCell.Classify | Sources/ABCSVCell.swift:12-21 | `init(string:)` never yields a Header. It is Empty exactly for blank text. Otherwise, on the trimmed text: it is a Date exactly when the date parser accepts it; an Integer exactly when that fails and `Int(_:)` accepts; a Decimal exactly when both fail and `Double(_:)` accepts; a Text, holding the trimmed text, exactly when all three fail. Each payload is the accepting parser's result |
| CsvCell.DateTakesPrecedence | Sources/ABCSVCell.swift:16-17 | text the date parser accepts is a Date even when it also reads as an integer |
| CsvCell.IntegerBeforeDecimal | Sources/ABCSVCell.swift:17-18 | text that is no date but reads as an integer is an Integer, never a Decimal |
| CsvCell.ClassifyIgnoresPadding | Sources/ABCSVCell.swift:14-20 | classification sees only the trimmed text: padding does not change the cell |
| CsvCell.SameTrimSameCell | Sources/ABCSVCell.swift:14-20 | two texts that trim to the same text classify to the same cell |
| CsvCell.Description | Sources/ABCSVCell.swift:23-32 | the payload for Header and Text, "" for Empty, and for an Integer a text that `Int(_:)` reads back as that integer |
| CsvCell.ReclassifyText | Sources/ABCSVCell.swift:12-32 | the description of a classified Text cell classifies back to the same cell |
| CsvCell.ReclassifyInteger | Sources/ABCSVCell.swift:17-27 | an Integer's description classifies back to that Integer unless the date parser accepts it |
| CsvCell.TypeDescription | Sources/ABCSVCell.swift:34-43 | "Header", "Text", "Integer", "Decimal", "Date" or "Empty", each exactly for its variant |
| CsvCell.TypeDescriptionNamesVariant | Sources/ABCSVCell.swift:34-43 | two cells have the same `typeDescription` exactly when they are of the same variant |
| CsvCell.Value | Sources/ABCSVCell.swift:45-54 | nil exactly for Empty; otherwise the payload of each variant |
| CsvCell.HeaderOf | Sources/ABCSVCell.swift:56-58 | `header` is a Header with the same description, and a Header's header is itself |
| CsvCell.HeaderIdempotent | Sources/ABCSVCell.swift:56-65 | `c.header.header == c.header` |
| CsvCell.IsHeader | Sources/ABCSVCell.swift:60-65 | true exactly for a cell whose `typeDescription` is "Header"; its value is then its text |
| CsvCell.FromIntegerLiteral | Sources/ABCSVCell.swift:68-74 | an integer literal is a cell of type "Integer" whose value is that integer |
| CsvCell.FromFloatLiteral | Sources/ABCSVCell.swift:76-82 | a float literal is a cell of type "Decimal" whose value is that number |
| CsvCell.FromStringLiteral | Sources/ABCSVCell.swift:84-95 | a string literal is a text cell, not a header, whose value is that string |
| CsvCell.FromCharacterLiteral | Sources/ABCSVCell.swift:97-99 | a character literal is a text cell, not a header, whose value is that one character |
| CsvCell.FromNilLiteral | Sources/ABCSVCell.swift:102-106 | `nil` is Empty: it has no value |
| CsvCell.Equals | Sources/ABCSVCell.swift:110-120 | `==` holds only between cells of the same variant: for two decimals it is `Double`'s `==`, for any other pair it is equality of variant and payload |
| CsvParser.Members | Sources/PatternMatching.swift:14-16 | a character matches an array exactly when the array contains it |
| CsvParser.DefaultMembers | Sources/ABCSVParser.swift:20-22 | a parser with the default arrays scans with row separators LF and CR, value separator comma and quote character `"` |
| CsvParser.ReplaceCRLF | Sources/ABCSVParser.swift:50-51 | CRLF normalisation never lengthens the text and keeps it empty exactly when it was empty |
| CsvParser.ReplaceCRLFWithoutCR | Sources/ABCSVParser.swift:50-51 | text without a CR LF pair is left as it is |
| CsvParser.ReplaceCRLFAppend | Sources/ABCSVParser.swift:50-51 | the replacement of two texts put together is the replacement of each, unless a CR ending the first and a LF starting the second form a pair |
| CsvParser.ReplaceCRLFSplits | Sources/ABCSVParser.swift:50-51 | a CR LF pair becomes the replacement character, and the text on either side is replaced on its own |
| CsvParser.ReplaceCRLFKeeps | Sources/ABCSVParser.swift:50-51 | a character that does not start a CR LF pair is kept |
| CsvParser.ReplaceCRLFRemovesPairs | Sources/ABCSVParser.swift:50-51 | when the replacement is neither CR nor LF, no CR LF pair is left |
| CsvParser.CRLFCanSurvive | Sources/ABCSVParser.swift:50-51 | with LF as the replacement, "\r\r\n" becomes "\r\n": the replacement is a single pass |
| CsvParser.QuoteLen | Sources/ABCSVParser.swift:104-111 | a quoted span ends at the first quote character of any kind, or at the end of the text |
| CsvScanFacts.QuoteLenClear | Sources/ABCSVParser.swift:106-110 | no character taken into a quoted span is a quote character |
| CsvParser.SplitValueSeparator | Sources/ABCSVParser.swift:61 | one step of `Split`, the value-separator case: it opens a new cell, and it is taken first whatever other sets hold the character |
| CsvParser.SplitRowSeparator | Sources/ABCSVParser.swift:63 | one step of `Split`, the row-separator case: a row separator that is no value separator and no quote character opens a new row |
| CsvParser.SplitText | Sources/ABCSVParser.swift:64 | one step of `Split`, the text case: any other character, or a quote character with quoting off, joins the first cell |
| CsvParser.SplitQuoted | Sources/ABCSVParser.swift:99-111 | one step of `Split`, the quoted case: a closed span's inner text joins the first cell, and the rest has its spans closed too |
| CsvParser.ScanStart | Sources/ABCSVParser.swift:55-67 | the scan loop, one step at a time from the start of a text with closed spans, stays within the text and ends with the rows of `Split` |
| CsvParser.ProgressCell | Sources/ABCSVParser.swift:93-97 | the events for a finished prefix grow by exactly one `foundCell`, at the current row and column, when one more cell is finished |
| CsvParser.ProgressRow | Sources/ABCSVParser.swift:85-91 | finishing a row adds its last `foundCell`, then `didEndRow` with the row's cell count, then `didStartRow` of the next row |
| CsvParser.ProgressEnd | Sources/ABCSVParser.swift:79-83 | finishing the last row adds its last `foundCell`, `didEndRow` with its count and `didEndDocument`, which completes `Trace` of the table |
| CsvParser.Parser.constructor | Sources/ABCSVParser.swift:30-44 | the arrays and text are kept; quoting and CRLF replacement start on |
| CsvParser.Parser.Parse | Sources/ABCSVParser.swift:47-69 | the events delivered are exactly `Trace(Split(cfg, chars))`; the counters end on the last row and its last cell |
| CsvParser.Parser.ParseCharacter | Sources/ABCSVParser.swift:58-67 | one pass of the loop moves the scan exactly as `Advance` describes and delivers that step's events |
| CsvParser.Parser.StartDocument | Sources/ABCSVParser.swift:71-77 | clears the text and counters, then delivers `didStartDocument` and `didStartRow(0)` |
| CsvParser.Parser.EndDocument | Sources/ABCSVParser.swift:79-83 | delivers the last cell, `didEndRow` with the column counter plus one, and `didEndDocument` |
| CsvParser.Parser.ParseRowSeparator | Sources/ABCSVParser.swift:85-91 | flushes the cell, ends the row with its cell count, moves to the next row at column 0 and starts it |
| CsvParser.Parser.ParseValueSeparator | Sources/ABCSVParser.swift:93-97 | delivers the cell, advances the column and clears the text |
| CsvParser.Parser.ParseQuotedText | Sources/ABCSVParser.swift:99-112 | with quoting off, the quote becomes text; with quoting on, the text up to the next quote character of any kind is taken in verbatim and the index is left on the closing quote |
| CsvParser.QuoteLenIs | Sources/ABCSVParser.swift:106-111 | where the inner loop of `parseQuotedText` stops is `QuoteLen` |
| CsvScanFacts.Conservation | Sources/ABCSVParser.swift:61-66 | the cell texts, run together, are exactly the characters whose role is cell text, in order |
| CsvScanFacts.CellCounts | Sources/ABCSVParser.swift:61-97 | there is one cell more than there are separators outside quoted spans |
| CsvScanFacts.RowCounts | Sources/ABCSVParser.swift:63-91 | there is one row more than there are row separators outside quoted spans |
| CsvScanFacts.SplitRowsNonEmpty | Sources/ABCSVParser.swift:47-112 | every row the scan finds has at least one cell |
| CsvScanFacts.RolesFit | Sources/ABCSVParser.swift:60-64 | each character's role fits it: a cell break is a value separator; a row break is a row separator that is neither a value separator nor a quote character; a quote mark occurs only with quoting on; with quoting on, no quote character is cell text |
| CsvScanFacts.RolesWithoutQuoting | Sources/ABCSVParser.swift:100-103 | with quoting off, each character's role depends only on that character |
| CsvScanFacts.TraceFound | Sources/ABCSVParser.swift:79-97 | the stream reports each cell of the table once, with its text, in order |
| CsvScanFacts.ParseReports | Sources/ABCSVParser.swift:47-112 | the `foundCell` texts are the input's cell-text characters, and there is one `foundCell` more than there are separators outside spans |
| CsvScanFacts.TraceWellNested | Sources/ABCSVParser.swift:71-97 | the stream opens the document, then gives each row's start, its cells numbered from 0, and its end with the cell count, then closes the document |
| CsvScanFacts.ParseWellNested | Sources/ABCSVParser.swift:47-112 | so is every stream the parser delivers |
| CsvScanFacts.TraceEnds | Sources/ABCSVParser.swift:71-83 | every stream starts with `didStartDocument`, `didStartRow(0)` and ends with the last cell, `didEndRow(r, c + 1)` and `didEndDocument` |
| CsvScanFacts.EmptyText | Sources/ABCSVParser.swift:47-83 | empty text is one row holding one empty cell, reported in full |
| CsvScanFacts.SplitPlain | Sources/ABCSVParser.swift:64 | a run of plain characters joins the first cell of what follows it |
| CsvScanFacts.QuotedSeparatorsAreText | Sources/ABCSVParser.swift:99-111 | with quoting on, `x,"y",z` is the single row `x`, `y`, `z` whatever separators `y` holds, and any quote character closes the span |
| CsvScanFacts.UnquotedSeparatorsSplit | Sources/ABCSVParser.swift:100-103 | with quoting off, a quoted value holding a separator splits there, and the quotes stay in the cell texts |
| CsvCollector.Init | Sources/ABCSVCollector.swift:11-12 | the collector starts with the table `[[Empty]]` and the current row `[Empty]` |
| CsvCollector.TrimEdges | Sources/ABCSVCollector.swift:43-49 | a blank last row alone leaves every row but the last; a blank first row alone leaves every row but the first; both blank leave the rows between them; neither leaves the table unchanged |
| CsvCollector.ClassifyRow | Sources/ABCSVCollector.swift:35-41 | each cell text is classified by `init(string:)`, in order |
| CsvCollector.KeepWidthMembers | Sources/ABCSVCollector.swift:27-30 | a row is kept exactly when it has the table's width |
| CsvCollector.KeepWidthRectangular | Sources/ABCSVCollector.swift:27-30 | when every row has the width, no row is dropped |
| CsvCollector.ReplayAppend | Sources/ABCSVCollector.swift:10-53 | feeding two event streams one after the other is feeding their concatenation |
| CsvCollector.ReplayResumes | Sources/ABCSVCollector.swift:10-53 | a replay that gets through a stream takes each event in turn from the state reached before it |
| CsvCollector.ReplayCells | Sources/ABCSVCollector.swift:35-41 | after a row's `foundCell` events, the current row is those cells classified, so its length is their number |
| CsvCollector.ReplayRowEvents | Sources/ABCSVCollector.swift:19-41 | a row's events leave its classified cells as the current row by the time `didEndRow` arrives |
| CsvCollector.ReplayRow | Sources/ABCSVCollector.swift:19-33 | a row's events make row 0 the whole table and fix the width; a later row is added only when it has that width; the current row is reset |
| CsvCollector.ReplayTrace | Sources/ABCSVCollector.swift:10-53 | replaying the stream for a table from a fresh collector gives `Collected`: rows of row 0's width, classified, trimmed at the edges, or a trap |
| CsvCollector.CollectedRectangular | Sources/ABCSVCollector.swift:24-30 | every row of the collected table has the width of row 0 |
| CsvCollector.BlankRow | Sources/ABCSVCollector.swift:44-47 | a classified row is all Empty exactly when all its texts are blank |
| CsvCollector.RectangularCollectedWhole | Sources/ABCSVCollector.swift:23-49 | a rectangular table whose first and last rows start with a non-blank text is collected whole |
| CsvCollector.BlankInputTraps | Sources/ABCSVCollector.swift:44-49 | a text whose only row is blank traps: the trimming reads the first row of an empty table |
| CsvCollector.BlankFirstLineCollapses | Sources/ABCSVCollector.swift:23-49 | a blank line before wider rows fixes the width at 1, and the text collects to `[[Empty]]` |
| CsvCollector.Collector.constructor | Sources/ABCSVCollector.swift:11-12 | a new collector is in the `Init` state |
| CsvCollector.Collector.DidStartDocument | Sources/ABCSVCollector.swift:15-17 | the current row becomes `[Empty]` |
| CsvCollector.Collector.DidStartRow | Sources/ABCSVCollector.swift:19-21 | nothing changes |
| CsvCollector.Collector.FoundCell | Sources/ABCSVCollector.swift:35-41 | at column 0 the first cell is overwritten; at any other column the classified cell is appended |
| CsvCollector.Collector.DidEndRow | Sources/ABCSVCollector.swift:23-33 | row 0 becomes the whole table and fixes the width; a later row is appended only when it has that width; the current row is reset |
| CsvCollector.Collector.DidEndDocument | Sources/ABCSVCollector.swift:43-53 | the table is trimmed at its edges and handed over |
| CsvCollector.Collector.Handle | Sources/ABCSVCollector.swift:15-53 | each event moves the collector exactly as `Step` describes |
| CsvTable.Filled | Sources/ABCSV.swift:46 | a rows by columns table holding the value everywhere |
| CsvTable.SetCell | Sources/ABCSV.swift:163-165 | the one cell changes and no other |
| CsvTable.Column | Sources/ABCSV.swift:177-179 | entry `j` of every row, in order |
| CsvTable.SetColumn | Sources/ABCSV.swift:187-189 | column `j` becomes the new column and every other cell stays |
| CsvTable.InsertColumn | Sources/ABCSV.swift:195-197 | the new column sits at `j`, and the old cells keep their order around it |
| CsvTable.RemoveColumn | Sources/ABCSV.swift:199-201 | column `j` goes, and the cells after it move left by one |
| CsvTable.AppendColumn | Sources/ABCSV.swift:203-205 | each row gets the column's entry at its end |
| CsvTable.SwapColumns | Sources/ABCSV.swift:181-185 | columns `i` and `j` are exchanged, and every other column stays |
| CsvTable.InsertRow | Sources/ABCSV.swift:217-219 | the new row sits at `i`, and the old rows keep their order around it |
| CsvTable.RemoveRow | Sources/ABCSV.swift:221-223 | row `i` goes, and the rows after it move up by one |
| CsvTable.SwapRows | Sources/ABCSV.swift:211-215 | rows `i` and `j` are exchanged, and every other row stays |
| CsvTable.SwapRowsPermutes | Sources/ABCSV.swift:211-215 | swapping rows permutes the table |
| CsvTable.SwapRowsTwice | Sources/ABCSV.swift:211-215 | swapping the same rows twice restores the table |
| CsvTable.SwapRowsSelf | Sources/ABCSV.swift:211-215 | swapping a row with itself changes nothing |
| CsvTable.SwapRowsSymmetric | Sources/ABCSV.swift:211-215 | the order of the two indices does not matter |
| CsvTable.SwapColumnsTwice | Sources/ABCSV.swift:181-185 | swapping the same columns twice restores the table |
| CsvTable.SwapColumnsSelf | Sources/ABCSV.swift:181-185 | swapping a column with itself changes nothing |
| CsvTable.RemoveInsertedRow | Sources/ABCSV.swift:217-223 | removing a row just inserted at the same index restores the table |
| CsvTable.InsertRemovedRow | Sources/ABCSV.swift:217-223 | putting a removed row back at its index restores the table |
| CsvTable.RemoveInsertedColumn | Sources/ABCSV.swift:195-201 | removing a column just inserted at the same index restores the table |
| CsvTable.InsertRemovedColumn | Sources/ABCSV.swift:195-201 | putting a removed column back at its index restores the table |
| CsvTable.AppendRowIsInsert | Sources/ABCSV.swift:217-227 | appending a row is inserting it after the last row |
| CsvTable.AppendColumnIsInsert | Sources/ABCSV.swift:195-205 | appending a column is inserting it after the last column |
| CsvDocument.Wrap | Sources/ABCSV.swift:141 | a double quote, the text as it is (inner quotes not escaped), a double quote |
| CsvDocument.ApplyQuotingRule | Sources/ABCSV.swift:138-153 | AllFields always wraps; AllTextFields wraps exactly the text cells; NecessaryTextFields wraps exactly the text cells whose description contains a separator; None never wraps |
| CsvDocument.QuotedOrBare | Sources/ABCSV.swift:138-153 | a field is the wrapped description or the bare description, nothing else |
| CsvDocument.LastCellNeverQuoted | Sources/ABCSV.swift:132-133 | each written row ends with the last cell's bare description and the row separator, whatever the rule |
| CsvDocument.FieldsSnoc | Sources/ABCSV.swift:129-131 | each cell before the last adds its quoted field and the value separator |
| CsvDocument.SerializeAppend | Sources/ABCSV.swift:126-136 | writing two tables one after the other is writing their rows one after the other |
| CsvDocument.WriteRow | Sources/ABCSV.swift:129-133 | the inner loop writes every cell but the last per the rule with a value separator, then the last cell bare, then the row separator |
| CsvDocument.Load | Sources/ABCSV.swift:54-70 | what reading a text yields, when it does not trap, is rectangular |
| CsvDocument.EmptyTextTraps | Sources/ABCSV.swift:54-70 | the empty text cannot be read: collecting it traps |
| CsvDocument.LoadReplaysTrace | Sources/ABCSV.swift:59-67 | replaying the default scan's events in a fresh collector is what `Load` describes, and the last event ends the document |
| CsvDocument.FeedCollector | Sources/ABCSV.swift:66-67 | delivering the events to the collector one by one leaves it in the state `Replay` describes, and keeps the table it hands over |
| CsvDocument.ScanEvents | Sources/ABCSV.swift:65-67 | a default parser over the text delivers the stream of the default scan of the CRLF-normalised text |
| CsvDocument.ReadText | Sources/ABCSV.swift:58-69 | parsing into a fresh collector yields the table and width of `Load` |
| CsvDocument.Document.constructor | Sources/ABCSV.swift:38-47 | a rowCount by columnCount table of the value, with the given separators and the NecessaryTextFields rule |
| CsvDocument.Document.WithHeaders | Sources/ABCSV.swift:49-52 | width `headers.count`; row 0 holds each header's `header`; every other cell is Empty |
| CsvDocument.Document.FromMatrix | Sources/ABCSV.swift:72-81 | the table is the matrix, with its width and the given separators |
| CsvDocument.Document.FromString | Sources/ABCSV.swift:54-70 | the table and width are what the collector hands over; the separators are the defaults, whatever was passed |
| CsvDocument.Document.StringRepresentation | Sources/ABCSV.swift:126-136 | the rows written in order, each closed by the row separator, as `Serialize` describes |
| CsvDocument.Document.Get | Sources/ABCSV.swift:159-162 | the cell at the row and column |
| CsvDocument.Document.Set | Sources/ABCSV.swift:163-165 | that cell is replaced, and the table stays rectangular |
| CsvDocument.Document.RowAt | Sources/ABCSV.swift:207-209 | the row, which has the table's width |
| CsvDocument.Document.SetRow | Sources/ABCSV.swift:191-193 | the row is replaced |
| CsvDocument.Document.ColumnAt | Sources/ABCSV.swift:177-179 | the column |
| CsvDocument.Document.SetColumn | Sources/ABCSV.swift:187-189 | the column is replaced |
| CsvDocument.Document.SwapColumns | Sources/ABCSV.swift:181-185 | the two columns are exchanged through a saved copy |
| CsvDocument.Document.InsertColumn | Sources/ABCSV.swift:195-197 | the column is inserted and the width grows by one |
| CsvDocument.Document.RemoveColumnAtIndex | Sources/ABCSV.swift:199-201 | the column is removed and the width shrinks by one |
| CsvDocument.Document.AppendColumn | Sources/ABCSV.swift:203-205 | the column is added after the last one |
| CsvDocument.Document.SwapRows | Sources/ABCSV.swift:211-215 | the two rows are exchanged through a saved copy |
| CsvDocument.Document.InsertRow | Sources/ABCSV.swift:217-219 | the row is inserted at the index |
| CsvDocument.Document.RemoveRowAtIndex | Sources/ABCSV.swift:221-223 | the row is removed |
| CsvDocument.Document.AppendRow | Sources/ABCSV.swift:225-227 | the row is added after the last one |
| CsvRoundTrip.QuotingMakesSafe | Sources/ABCSV.swift:138-153 | with the default separators, a description without quote or carriage return survives the scan under AllFields for any cell, and under AllTextFields and NecessaryTextFields for a text cell, since NecessaryTextFields wraps exactly the text holding a separator |
| CsvRoundTrip.FieldOnto | Sources/ABCSV.swift:129-131 | a field that survives the scan, written with its value separator, becomes the first cell of what follows, whether bare or between quotes |
| CsvRoundTrip.RowOnto | Sources/ABCSV.swift:129-133 | the default scan of a written row whose fields survive the scan finds that row of descriptions |
| CsvRoundTrip.SerializeOnto | Sources/ABCSV.swift:126-136 | the default scan of the written rows finds the descriptions, row by row |
| CsvRoundTrip.WrittenTextScans | Sources/ABCSV.swift:126-136 | the written text needs no CRLF replacement, has its quoted spans closed, and scans to the descriptions plus one trailing empty row |
| CsvRoundTrip.ClassifyDescribed | Sources/ABCSVCell.swift:12-32 | cells that classify back as themselves are recovered from their descriptions |
| CsvRoundTrip.CollectAfterWriting | Sources/ABCSVCollector.swift:23-49 | collecting the scanned text keeps every row and trims just the trailing empty row |
| CsvRoundTrip.ReadBack | Sources/ABCSV.swift:54-136 | `init(fromString:)` of `stringRepresentation` gives back the table and its width, under the conditions above and under every quoting rule |

## Left out

- File input (`fromFile`), the regular-expression splitting of `fromText` with its `Regex` cases and `rangesOfString` (`Sources/ABCSV+String.swift`), and `dataRepresentation` are not modelled. They are I/O, a foreign regular-expression engine and a text encoding.
- The semaphore in `init(fromString:)` is not modelled. It only waits for the collector's callback, which the model replaces with a direct hand-over: `Collector.DidEndDocument` returns the table.
- The delegate is optional in the source and the callback is a closure. In the model, the parser always has its delegate, the `trace`, and the collector's callback is the returned table.
- `ABMatrix` and `ABVector` are not part of this model. Their callers' duties become preconditions: indices in range, new rows and columns of the matching length.
- Date parsing, `Double(_:)` and the `description`s of `Double` and `NSDate` are function parameters, and the Decimal and Date payloads are abstract types. No property of those routines is assumed beyond what the parameters say.
- Swift's grapheme clusters are not modelled. Text is a sequence of `char`, so "\r\n" is two characters.
- `abortParsing`, the empty delegate extension of `ABCSV`, the second `ABCSVParserCollector` in `Sources/ABCSV.swift` and the older `ABCSV` class in `Sources/CSV.swift` are not modelled. They do nothing or are stale copies.
- `description` of the document is not modelled. It forwards to the unseen `ABMatrix.description`.
- `isText` is not defined in the modelled files. `IsText` takes the text-bearing cells to be Text and Header.
- The quoting rule `None` is named `NoQuoting`, because `None` is the empty case of `Option` here.
- The separator arrays become sets. The scan only asks whether a character is in each array.
- Parser.Parse: requires every quoted span to be closed and, with CRLF replacement on, a non-empty row-separator array. The source traps otherwise, stepping past the end of the text or taking the first element of an empty array.
- Collector.DidEndDocument: requires the table to be trimmable, and so does Collector.Handle for `didEndDocument`. The source traps when a table whose only row is blank is trimmed down to nothing and its first row is then read (`BlankInputTraps`).
- Document.FromString: requires the text to have its quoted spans closed and to collect without a trap (`Load` is not `None`). The source traps otherwise.
- Document.StringRepresentation: requires at least one column when there are rows. The source builds the range `0..<columnCount-1`, which traps for a width of 0.
- Document.WithHeaders: requires at least one row when there are headers. The source writes row 0, which does not exist otherwise.
- CsvRoundTrip.ReadBack: is stated only for the default separators and for fields that survive the scan. The others do not read back. A separator in the last column, which is written bare, splits the row. A quote inside a description is not escaped, so it ends the quoted span. A CR LF pair inside a quoted description is normalised to LF. Under NecessaryTextFields, a lone CR in a text is left unquoted and ends the row. A non-text cell holding a separator is written bare.
- CsvCell.Equals: compares decimals with `doubleEquals`, a parameter standing for Swift's IEEE 754 `==` (NaN unequal to itself, 0.0 equal to -0.0). No property of it is assumed.
