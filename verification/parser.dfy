/**
 * The streaming tokenizer (Sources/ABCSVParser.swift).
 *
 * `Parser.Parse` scans the text once, left to right, and reports what it
 * finds to its delegate as a stream of events. Here the delegate is the
 * sequence `trace` of the events delivered so far.
 *
 * What the scan produces is specified by `Split`, a table of the raw cell
 * texts defined by recursion from the front of the text, and by `Trace`,
 * the event stream that reports a table row by row. `Parse` is proved to
 * deliver exactly `Trace(Split(...))`.
 */
module CsvParser {

  /** One call of the delegate protocol `ABCSVParserDelegate`. */
  datatype Event =
    | DidStartDocument
    | DidStartRow(row: nat)
    | FoundCell(contents: string, row: nat, column: nat)
    | DidEndRow(row: nat, columnCount: nat)
    | DidEndDocument

  /**
   * The character sets and the quoting switch one scan runs with. The scan
   * only asks whether a character is in each array, so each is a set here.
   */
  datatype Config = Config(
    rowSeparators: set<char>,
    valueSeparators: set<char>,
    quoteCharacters: set<char>,
    ignoreQuotedText: bool)

  /** The characters of an array, as the set `contains` tests against. */
  function Members(cs: seq<char>): (m: set<char>)
    ensures forall c :: c in m <==> c in cs
  {
    set c | c in cs
  }

  const DefaultRowSeparators: seq<char> := ['\n', '\r']
  const DefaultValueSeparators: seq<char> := [',']
  const DefaultQuoteCharacters: seq<char> := ['"']

  /** The configuration a parser built with the default arguments scans with. */
  const DefaultConfig: Config := Config({'\n', '\r'}, {','}, {'"'}, true)

  lemma DefaultMembers()
    ensures Config(Members(DefaultRowSeparators), Members(DefaultValueSeparators), Members(DefaultQuoteCharacters), true) == DefaultConfig
  {
    assert Members(DefaultRowSeparators) == {'\n', '\r'};
    assert Members(DefaultValueSeparators) == {','};
    assert Members(DefaultQuoteCharacters) == {'"'};
  }

  // ---------------------------------------------------------------------
  // CRLF normalisation

  /** `stringByReplacingOccurrencesOfString("\r\n", withString: [r])`: one pass, left to right. */
  function ReplaceCRLF(s: string, r: char): (t: string)
    ensures |t| <= |s|
    ensures t != [] <==> s != []
    ensures t != [] ==> t[0] == r || t[0] == s[0]
    decreases |s|
  {
    if |s| >= 2 && s[0] == '\r' && s[1] == '\n' then [r] + ReplaceCRLF(s[2..], r)
    else if s == [] then []
    else [s[0]] + ReplaceCRLF(s[1..], r)
  }

  /** No carriage return in `s` is directly followed by a line feed. */
  predicate NoCRLF(s: string)
  {
    forall k :: 0 <= k < |s| - 1 ==> !(s[k] == '\r' && s[k + 1] == '\n')
  }

  /** Text without a CR LF pair is left as it is. */
  lemma {:induction false} ReplaceCRLFWithoutCR(s: string, r: char)
    requires NoCRLF(s)
    ensures ReplaceCRLF(s, r) == s
    decreases |s|
  {
    if s != [] {
      assert !(|s| >= 2 && s[0] == '\r' && s[1] == '\n');
      assert NoCRLF(s[1..]) by {
        forall k | 0 <= k < |s[1..]| - 1
          ensures !(s[1..][k] == '\r' && s[1..][k + 1] == '\n')
        {
          assert s[1..][k] == s[k + 1] && s[1..][k + 1] == s[k + 2];
        }
      }
      ReplaceCRLFWithoutCR(s[1..], r);
    }
  }

  /**
   * The replacement works piece by piece: the text of `x + z` becomes the
   * text of `x` then the text of `z`, unless a CR ending `x` and a LF
   * starting `z` form a pair across the seam.
   */
  lemma {:induction false} ReplaceCRLFAppend(x: string, z: string, r: char)
    requires !(x != [] && x[|x| - 1] == '\r' && z != [] && z[0] == '\n')
    ensures ReplaceCRLF(x + z, r) == ReplaceCRLF(x, r) + ReplaceCRLF(z, r)
    decreases |x|
  {
    if x == [] {
      assert x + z == z;
    } else if |x| >= 2 && x[0] == '\r' && x[1] == '\n' {
      assert x[2..] != [] ==> x[2..][|x[2..]| - 1] == x[|x| - 1];
      ReplaceCRLFAppend(x[2..], z, r);
      AppendAfterPair(x, z, r);
    } else {
      assert x[1..] != [] ==> x[1..][|x[1..]| - 1] == x[|x| - 1];
      ReplaceCRLFAppend(x[1..], z, r);
      AppendAfterOther(x, z, r);
    }
  }

  /** The CR LF step of `ReplaceCRLFAppend`. */
  lemma AppendAfterPair(x: string, z: string, r: char)
    requires |x| >= 2 && x[0] == '\r' && x[1] == '\n'
    requires ReplaceCRLF(x[2..] + z, r) == ReplaceCRLF(x[2..], r) + ReplaceCRLF(z, r)
    ensures ReplaceCRLF(x + z, r) == ReplaceCRLF(x, r) + ReplaceCRLF(z, r)
  {
    var u := x + z;
    DropTwoOfAppend(x, z);
    ReplaceCRLFPair(u, r);
    ReplaceCRLFPair(x, r);
    var p, q := ReplaceCRLF(x[2..], r), ReplaceCRLF(z, r);
    calc {
      ReplaceCRLF(u, r);
      [r] + (p + q);
      { SeqAssoc([r], p, q); }
      ([r] + p) + q;
    }
  }

  /** The single-character step of `ReplaceCRLFAppend`. */
  lemma AppendAfterOther(x: string, z: string, r: char)
    requires x != [] && !(|x| >= 2 && x[0] == '\r' && x[1] == '\n')
    requires !(|x| == 1 && x[0] == '\r' && z != [] && z[0] == '\n')
    requires ReplaceCRLF(x[1..] + z, r) == ReplaceCRLF(x[1..], r) + ReplaceCRLF(z, r)
    ensures ReplaceCRLF(x + z, r) == ReplaceCRLF(x, r) + ReplaceCRLF(z, r)
  {
    var u := x + z;
    DropOneOfAppend(x, z);
    ReplaceCRLFOther(u, r);
    ReplaceCRLFOther(x, r);
    var p, q := ReplaceCRLF(x[1..], r), ReplaceCRLF(z, r);
    calc {
      ReplaceCRLF(u, r);
      [x[0]] + (p + q);
      { SeqAssoc([x[0]], p, q); }
      ([x[0]] + p) + q;
    }
  }

  lemma DropOneOfAppend(x: string, z: string)
    requires x != []
    ensures (x + z)[0] == x[0] && (x + z)[1..] == x[1..] + z
    ensures |x| >= 2 ==> (x + z)[1] == x[1]
    ensures |x| == 1 ==> (x + z)[1..] == z
  {
  }

  lemma DropTwoOfAppend(x: string, z: string)
    requires |x| >= 2
    ensures (x + z)[0] == x[0] && (x + z)[1] == x[1] && (x + z)[2..] == x[2..] + z
  {
  }

  lemma SeqAssoc(a: string, b: string, c: string)
    ensures a + (b + c) == (a + b) + c
  {
  }

  lemma ReplaceCRLFPair(u: string, r: char)
    requires |u| >= 2 && u[0] == '\r' && u[1] == '\n'
    ensures ReplaceCRLF(u, r) == [r] + ReplaceCRLF(u[2..], r)
  {
  }

  lemma ReplaceCRLFOther(u: string, r: char)
    requires u != [] && !(|u| >= 2 && u[0] == '\r' && u[1] == '\n')
    ensures ReplaceCRLF(u, r) == [u[0]] + ReplaceCRLF(u[1..], r)
  {
  }

  /**
   * Each CR LF pair becomes the replacement, and the text on either side
   * is replaced on its own.
   */
  lemma ReplaceCRLFSplits(x: string, y: string, r: char)
    ensures ReplaceCRLF(x + "\r\n" + y, r) == ReplaceCRLF(x, r) + [r] + ReplaceCRLF(y, r)
  {
    var z := "\r\n" + y;
    assert x + "\r\n" + y == x + z;
    assert z[0] == '\r' && z[1] == '\n' && z[2..] == y;
    ReplaceCRLFAppend(x, z, r);
  }

  /** A character that starts no pair is kept. */
  lemma ReplaceCRLFKeeps(c: char, y: string, r: char)
    requires !(c == '\r' && y != [] && y[0] == '\n')
    ensures ReplaceCRLF([c] + y, r) == [c] + ReplaceCRLF(y, r)
  {
    var u := [c] + y;
    assert u[0] == c && u[1..] == y;
  }

  /** No CR LF pair is left when the replacement is neither CR nor LF. */
  lemma {:induction false} ReplaceCRLFRemovesPairs(s: string, r: char)
    requires r != '\r' && r != '\n'
    ensures NoCRLF(ReplaceCRLF(s, r))
    decreases |s|
  {
    var t := ReplaceCRLF(s, r);
    if |s| >= 2 && s[0] == '\r' && s[1] == '\n' {
      var rest := ReplaceCRLF(s[2..], r);
      ReplaceCRLFRemovesPairs(s[2..], r);
      assert t == [r] + rest;
      forall k | 0 <= k < |t| - 1
        ensures !(t[k] == '\r' && t[k + 1] == '\n')
      {
        if k > 0 {
          assert t[k] == rest[k - 1] && t[k + 1] == rest[k];
        }
      }
    } else if s != [] {
      var rest := ReplaceCRLF(s[1..], r);
      ReplaceCRLFRemovesPairs(s[1..], r);
      assert t == [s[0]] + rest;
      forall k | 0 <= k < |t| - 1
        ensures !(t[k] == '\r' && t[k + 1] == '\n')
      {
        if k > 0 {
          assert t[k] == rest[k - 1] && t[k + 1] == rest[k];
        } else {
          assert t[1] == rest[0];
          assert rest[0] == r || rest[0] == s[1];
        }
      }
    }
  }

  /** With LF as the replacement, a pair can survive: the scan is a single pass. */
  lemma CRLFCanSurvive()
    ensures ReplaceCRLF("\r\r\n", '\n') == "\r\n"
  {
    assert "\r\r\n"[1..] == "\r\n";
    assert "\r\n"[2..] == "";
  }

  // ---------------------------------------------------------------------
  // The table a scan finds

  /** A table of raw cell texts: at least one row, no row without a cell. */
  predicate IsTable(t: seq<seq<string>>)
  {
    |t| > 0 && forall i :: 0 <= i < |t| ==> |t[i]| > 0
  }

  /** A table whose first row has a cell, so text can be put in front of it. */
  predicate Headed(t: seq<seq<string>>)
  {
    |t| > 0 && |t[0]| > 0
  }

  /** The length of the text a quoted span takes in: up to the next quote character. */
  function QuoteLen(quotes: set<char>, s: string): (n: nat)
    ensures n <= |s|
    ensures n < |s| ==> s[n] in quotes
    decreases |s|
  {
    if s == [] || s[0] in quotes then 0
    else 1 + QuoteLen(quotes, s[1..])
  }

  /** Puts `x` in front of the first cell of `t`. */
  function PrependText(x: string, t: seq<seq<string>>): (r: seq<seq<string>>)
    requires Headed(t)
    ensures Headed(r) && |r| == |t|
  {
    [[x + t[0][0]] + t[0][1..]] + t[1..]
  }

  /**
   * The table of raw cell texts the scan of `s` finds. A value separator
   * starts a new cell, a row separator a new row; with quoting on, a quote
   * character opens a span that runs to the next quote character (or to the
   * end of the text) and whose characters are all cell text.
   */
  function Split(cfg: Config, s: string): (t: seq<seq<string>>)
    ensures Headed(t)
    decreases |s|
  {
    if s == [] then [[""]]
    else if s[0] in cfg.valueSeparators then
      var rest := Split(cfg, s[1..]);
      [[""] + rest[0]] + rest[1..]
    else if s[0] in cfg.quoteCharacters && cfg.ignoreQuotedText then
      var n := QuoteLen(cfg.quoteCharacters, s[1..]);
      if 1 + n == |s| then [[s[1..]]]
      else PrependText(s[1..1 + n], Split(cfg, s[n + 2..]))
    else if s[0] in cfg.rowSeparators && s[0] !in cfg.quoteCharacters then
      [[""]] + Split(cfg, s[1..])
    else PrependText([s[0]], Split(cfg, s[1..]))
  }

  /**
   * Every quoted span the scan opens is closed. The scan as written steps
   * past the end of the text after an unclosed span, so this is what it
   * demands of its input.
   */
  predicate QuotesClosed(cfg: Config, s: string)
    decreases |s|
  {
    if s == [] then true
    else if s[0] in cfg.valueSeparators then QuotesClosed(cfg, s[1..])
    else if s[0] in cfg.quoteCharacters && cfg.ignoreQuotedText then
      var n := QuoteLen(cfg.quoteCharacters, s[1..]);
      1 + n < |s| && QuotesClosed(cfg, s[n + 2..])
    else QuotesClosed(cfg, s[1..])
  }

  // ---------------------------------------------------------------------
  // The event stream that reports a table

  /** The `foundCell` events of one row, columns numbered from 0. */
  function CellEvents(cells: seq<string>, row: nat): (es: seq<Event>)
    ensures |es| == |cells|
    ensures forall k :: 0 <= k < |cells| ==> es[k] == FoundCell(cells[k], row, k)
  {
    seq(|cells|, k requires 0 <= k < |cells| => FoundCell(cells[k], row, k))
  }

  /** The events of one row: start, its cells, end with the number of cells. */
  function RowBlock(cells: seq<string>, row: nat): seq<Event>
  {
    [DidStartRow(row)] + CellEvents(cells, row) + [DidEndRow(row, |cells|)]
  }

  /** The row events of a whole table, rows numbered from 0. */
  function Blocks(rows: seq<seq<string>>): seq<Event>
    decreases |rows|
  {
    if rows == [] then []
    else Blocks(rows[..|rows| - 1]) + RowBlock(rows[|rows| - 1], |rows| - 1)
  }

  /** The complete event stream for a table. */
  function Trace(t: seq<seq<string>>): seq<Event>
  {
    [DidStartDocument] + Blocks(t) + [DidEndDocument]
  }

  /** The events delivered once rows `rows` and cells `cells` of the next row are found. */
  function Progress(rows: seq<seq<string>>, cells: seq<string>): seq<Event>
  {
    [DidStartDocument] + Blocks(rows) + [DidStartRow(|rows|)] + CellEvents(cells, |rows|)
  }

  lemma ProgressCell(rows: seq<seq<string>>, cells: seq<string>, x: string)
    ensures Progress(rows, cells + [x]) == Progress(rows, cells) + [FoundCell(x, |rows|, |cells|)]
  {
    CellEventsAppend(cells, x, |rows|);
  }

  lemma ProgressRow(rows: seq<seq<string>>, cells: seq<string>, x: string)
    ensures Progress(rows + [cells + [x]], []) == Progress(rows, cells)
      + [FoundCell(x, |rows|, |cells|), DidEndRow(|rows|, |cells| + 1), DidStartRow(|rows| + 1)]
  {
    CellEventsAppend(cells, x, |rows|);
    BlocksAppend(rows, cells + [x]);
    assert CellEvents([], |rows| + 1) == [];
  }

  lemma ProgressEnd(rows: seq<seq<string>>, cells: seq<string>, x: string)
    ensures Trace(rows + [cells + [x]]) == Progress(rows, cells)
      + [FoundCell(x, |rows|, |cells|), DidEndRow(|rows|, |cells| + 1), DidEndDocument]
  {
    CellEventsAppend(cells, x, |rows|);
    BlocksAppend(rows, cells + [x]);
  }

  lemma CellEventsAppend(cells: seq<string>, x: string, row: nat)
    ensures CellEvents(cells + [x], row) == CellEvents(cells, row) + [FoundCell(x, row, |cells|)]
  {
    assert forall k :: 0 <= k < |cells| ==> (cells + [x])[k] == cells[k];
  }

  lemma BlocksAppend(rows: seq<seq<string>>, cells: seq<string>)
    ensures Blocks(rows + [cells]) == Blocks(rows) + RowBlock(cells, |rows|)
  {
    assert (rows + [cells])[..|rows|] == rows;
  }

  // ---------------------------------------------------------------------
  // How one step of the scan moves through the table

  /**
   * The table made of the finished rows `rows`, the finished cells `cells`
   * of the current row, the text `acc` of the current cell, and the table
   * `t` the rest of the text yields.
   */
  function Glue(rows: seq<seq<string>>, cells: seq<string>, acc: string, t: seq<seq<string>>): seq<seq<string>>
    requires Headed(t)
  {
    rows + [cells + [acc + t[0][0]] + t[0][1..]] + t[1..]
  }

  lemma GlueStart(t: seq<seq<string>>)
    requires Headed(t)
    ensures Glue([], [], "", t) == t
  {
    var g := Glue([], [], "", t);
    assert "" + t[0][0] == t[0][0];
    assert g == [[] + [t[0][0]] + t[0][1..]] + t[1..];
    var cells: seq<string> := [];
    var rows: seq<seq<string>> := [];
    assert cells + [t[0][0]] + t[0][1..] == t[0];
    assert rows + [t[0]] + t[1..] == t;
  }

  lemma GlueEnd(rows: seq<seq<string>>, cells: seq<string>, acc: string)
    ensures Glue(rows, cells, acc, [[""]]) == rows + [cells + [acc]]
  {
    var t: seq<seq<string>> := [[""]];
    assert t[0][0] == "" && t[0][1..] == [] && t[1..] == [];
    assert acc + "" == acc;
    assert cells + [acc] + [] == cells + [acc];
    assert rows + [cells + [acc]] + [] == rows + [cells + [acc]];
  }

  // One unfolding of `Split` and `QuotesClosed` per kind of first character.

  lemma SplitValueSeparator(cfg: Config, u: string)
    requires u != [] && u[0] in cfg.valueSeparators
    ensures var r := Split(cfg, u[1..]); Split(cfg, u) == [[""] + r[0]] + r[1..]
    ensures QuotesClosed(cfg, u) ==> QuotesClosed(cfg, u[1..])
  {
  }

  lemma SplitRowSeparator(cfg: Config, u: string)
    requires u != [] && u[0] !in cfg.valueSeparators && u[0] !in cfg.quoteCharacters
    requires u[0] in cfg.rowSeparators
    ensures Split(cfg, u) == [[""]] + Split(cfg, u[1..])
    ensures QuotesClosed(cfg, u) ==> QuotesClosed(cfg, u[1..])
  {
  }

  lemma SplitText(cfg: Config, u: string)
    requires u != [] && u[0] !in cfg.valueSeparators
    requires u[0] in cfg.quoteCharacters ==> !cfg.ignoreQuotedText
    requires u[0] in cfg.rowSeparators ==> u[0] in cfg.quoteCharacters
    ensures Split(cfg, u) == PrependText([u[0]], Split(cfg, u[1..]))
    ensures QuotesClosed(cfg, u) ==> QuotesClosed(cfg, u[1..])
  {
  }

  lemma SplitSpan(cfg: Config, s: string, n: nat)
    requires s != [] && s[0] !in cfg.valueSeparators && s[0] in cfg.quoteCharacters && cfg.ignoreQuotedText
    requires n == QuoteLen(cfg.quoteCharacters, s[1..]) && 1 + n < |s|
    ensures Split(cfg, s) == PrependText(s[1..1 + n], Split(cfg, s[n + 2..]))
  {
    var rest := Split(cfg, s[n + 2..]);
    assert 1 + n != |s|;
    assert Split(cfg, s) == PrependText(s[1..1 + n], rest);
  }

  lemma SplitSpanAt(cfg: Config, s: string, i: nat, n: nat)
    requires i < |s| && s[i] !in cfg.valueSeparators && s[i] in cfg.quoteCharacters && cfg.ignoreQuotedText
    requires n == QuoteLen(cfg.quoteCharacters, s[i + 1..]) && i + n + 1 < |s|
    ensures Split(cfg, s[i..]) == PrependText(s[i + 1..i + 1 + n], Split(cfg, s[i + n + 2..]))
  {
    var u := s[i..];
    assert u[1..] == s[i + 1..];
    SplitSpan(cfg, u, n);
    assert u[n + 2..] == s[i + n + 2..];
    assert u[1..1 + n] == s[i + 1..i + 1 + n];
  }

  lemma SplitQuoted(cfg: Config, u: string, n: nat)
    requires u != [] && u[0] !in cfg.valueSeparators && u[0] in cfg.quoteCharacters
    requires cfg.ignoreQuotedText && QuotesClosed(cfg, u)
    requires n == QuoteLen(cfg.quoteCharacters, u[1..])
    ensures n + 1 < |u| && QuotesClosed(cfg, u[n + 2..])
    ensures Split(cfg, u) == PrependText(u[1..1 + n], Split(cfg, u[n + 2..]))
  {
    ClosedSpan(cfg, u, n);
    SplitSpan(cfg, u, n);
  }

  lemma ClosedSpan(cfg: Config, u: string, n: nat)
    requires u != [] && u[0] !in cfg.valueSeparators && u[0] in cfg.quoteCharacters
    requires cfg.ignoreQuotedText && QuotesClosed(cfg, u)
    requires n == QuoteLen(cfg.quoteCharacters, u[1..])
    ensures n + 1 < |u| && QuotesClosed(cfg, u[n + 2..])
  {
  }

  lemma SplitQuotedSpan(cfg: Config, s: string, i: nat, n: nat)
    requires i < |s| && s[i] !in cfg.valueSeparators && s[i] in cfg.quoteCharacters
    requires cfg.ignoreQuotedText && QuotesClosed(cfg, s[i..])
    requires n == QuoteLen(cfg.quoteCharacters, s[i + 1..])
    ensures i + n + 1 < |s|
    ensures Split(cfg, s[i..]) == PrependText(s[i + 1..i + 1 + n], Split(cfg, s[i + n + 2..]))
    ensures QuotesClosed(cfg, s[i + n + 2..])
  {
    var u := s[i..];
    assert u[1..] == s[i + 1..];
    SplitQuoted(cfg, u, n);
    assert u[n + 2..] == s[i + n + 2..];
    assert u[1..1 + n] == s[i + 1..i + 1 + n];
  }

  // How the glued table changes when the scan moves on.

  lemma GlueValueSeparator(rows: seq<seq<string>>, cells: seq<string>, acc: string, r: seq<seq<string>>)
    requires Headed(r)
    ensures Headed([[""] + r[0]] + r[1..])
    ensures Glue(rows, cells, acc, [[""] + r[0]] + r[1..]) == Glue(rows, cells + [acc], "", r)
  {
    var t := [[""] + r[0]] + r[1..];
    assert t[0][0] == "" && t[0][1..] == r[0] && t[1..] == r[1..];
    assert acc + "" == acc && "" + r[0][0] == r[0][0];
    assert [r[0][0]] + r[0][1..] == r[0];
    assert cells + [acc] + r[0] == cells + [acc] + [r[0][0]] + r[0][1..];
  }

  lemma GlueRowSeparator(rows: seq<seq<string>>, cells: seq<string>, acc: string, r: seq<seq<string>>)
    requires Headed(r)
    ensures Headed([[""]] + r)
    ensures Glue(rows, cells, acc, [[""]] + r) == Glue(rows + [cells + [acc]], [], "", r)
  {
    var t := [[""]] + r;
    assert t[0] == [""] && t[0][1..] == [] && t[1..] == r;
    assert acc + "" == acc && "" + r[0][0] == r[0][0];
    assert Glue(rows, cells, acc, t) == rows + [cells + [acc]] + r by {
      assert cells + [acc + t[0][0]] + t[0][1..] == cells + [acc];
    }
    var none: seq<string> := [];
    assert none + [r[0][0]] + r[0][1..] == r[0];
    assert [r[0]] + r[1..] == r;
  }

  lemma GluePrepend(rows: seq<seq<string>>, cells: seq<string>, acc: string, x: string, r: seq<seq<string>>)
    requires Headed(r)
    ensures Glue(rows, cells, acc, PrependText(x, r)) == Glue(rows, cells, acc + x, r)
  {
    assert acc + (x + r[0][0]) == (acc + x) + r[0][0];
  }

  /** Where the scan stands: the next index, the finished rows and cells, the open cell's text. */
  datatype Position = Position(index: nat, rows: seq<seq<string>>, cells: seq<string>, acc: string)

  /** Where one step of the scan from index `i` leaves it. */
  ghost function StepEnd(cfg: Config, s: string, i: nat): (j: nat)
    requires i < |s|
    ensures i < j
  {
    if s[i] !in cfg.valueSeparators && s[i] in cfg.quoteCharacters && cfg.ignoreQuotedText then
      i + 2 + QuoteLen(cfg.quoteCharacters, s[i + 1..])
    else i + 1
  }

  /** One step of the scan from `p`, as the loop of `parse` takes it. */
  ghost function Advance(cfg: Config, s: string, p: Position): (q: Position)
    requires p.index < |s|
    ensures q.index == StepEnd(cfg, s, p.index)
  {
    var c := s[p.index];
    if c in cfg.valueSeparators then Position(p.index + 1, p.rows, p.cells + [p.acc], "")
    else if c in cfg.quoteCharacters && cfg.ignoreQuotedText then
      var j := p.index + 1 + QuoteLen(cfg.quoteCharacters, s[p.index + 1..]);
      Position(j + 1, p.rows, p.cells, p.acc + s[p.index + 1..j])
    else if c in cfg.rowSeparators && c !in cfg.quoteCharacters then
      Position(p.index + 1, p.rows + [p.cells + [p.acc]], [], "")
    else Position(p.index + 1, p.rows, p.cells, p.acc + [c])
  }

  /**
   * At `p`, after `p.index` characters of `s`, with finished rows `p.rows`,
   * finished cells `p.cells` and open cell text `p.acc`, the scan is on course
   * to find `table`: gluing what it has to the split of the rest of the text
   * gives `table`.
   */
  ghost predicate Scanned(cfg: Config, s: string, table: seq<seq<string>>, p: Position)
  {
    p.index <= |s| && table == Glue(p.rows, p.cells, p.acc, Split(cfg, s[p.index..]))
  }

  lemma ScanValueSeparator(cfg: Config, s: string, table: seq<seq<string>>, p: Position)
    requires Scanned(cfg, s, table, p) && p.index < |s| && s[p.index] in cfg.valueSeparators
    ensures Scanned(cfg, s, table, Position(p.index + 1, p.rows, p.cells + [p.acc], ""))
  {
    var u := s[p.index..];
    assert u[1..] == s[p.index + 1..];
    SplitValueSeparator(cfg, u);
    GlueValueSeparator(p.rows, p.cells, p.acc, Split(cfg, u[1..]));
  }

  lemma ScanRowSeparator(cfg: Config, s: string, table: seq<seq<string>>, p: Position)
    requires Scanned(cfg, s, table, p) && p.index < |s|
    requires s[p.index] !in cfg.valueSeparators && s[p.index] !in cfg.quoteCharacters
    requires s[p.index] in cfg.rowSeparators
    ensures Scanned(cfg, s, table, Position(p.index + 1, p.rows + [p.cells + [p.acc]], [], ""))
  {
    var u := s[p.index..];
    assert u[1..] == s[p.index + 1..];
    SplitRowSeparator(cfg, u);
    GlueRowSeparator(p.rows, p.cells, p.acc, Split(cfg, u[1..]));
  }

  lemma ScanText(cfg: Config, s: string, table: seq<seq<string>>, p: Position)
    requires Scanned(cfg, s, table, p) && p.index < |s| && s[p.index] !in cfg.valueSeparators
    requires s[p.index] in cfg.quoteCharacters ==> !cfg.ignoreQuotedText
    requires s[p.index] in cfg.rowSeparators ==> s[p.index] in cfg.quoteCharacters
    ensures Scanned(cfg, s, table, Position(p.index + 1, p.rows, p.cells, p.acc + [s[p.index]]))
  {
    var u := s[p.index..];
    assert u[1..] == s[p.index + 1..];
    SplitText(cfg, u);
    GluePrepend(p.rows, p.cells, p.acc, [s[p.index]], Split(cfg, u[1..]));
  }

  lemma ScanQuotedSpan(cfg: Config, s: string, table: seq<seq<string>>, p: Position, n: nat)
    requires Scanned(cfg, s, table, p) && p.index < |s|
    requires s[p.index] !in cfg.valueSeparators && s[p.index] in cfg.quoteCharacters && cfg.ignoreQuotedText
    requires n == QuoteLen(cfg.quoteCharacters, s[p.index + 1..]) && p.index + n + 1 < |s|
    ensures Scanned(cfg, s, table, Position(p.index + n + 2, p.rows, p.cells, p.acc + s[p.index + 1..p.index + 1 + n]))
  {
    var i := p.index;
    SplitSpanAt(cfg, s, i, n);
    GluePrepend(p.rows, p.cells, p.acc, s[i + 1..i + 1 + n], Split(cfg, s[i + n + 2..]));
  }

  /** A step from an index whose rest has its quoted spans closed stays in the text, and so does its rest. */
  lemma ClosedStep(cfg: Config, s: string, i: nat)
    requires i < |s| && QuotesClosed(cfg, s[i..])
    ensures StepEnd(cfg, s, i) <= |s|
    ensures QuotesClosed(cfg, s[StepEnd(cfg, s, i)..])
  {
    if s[i] !in cfg.valueSeparators && s[i] in cfg.quoteCharacters && cfg.ignoreQuotedText {
      var n := QuoteLen(cfg.quoteCharacters, s[i + 1..]);
      assert StepEnd(cfg, s, i) == i + n + 2;
      SplitQuotedSpan(cfg, s, i, n);
    } else {
      assert StepEnd(cfg, s, i) == i + 1;
      ClosedNext(cfg, s, i);
    }
  }

  /** Past a character that opens no quoted span, the rest still has its quoted spans closed. */
  lemma ClosedNext(cfg: Config, s: string, i: nat)
    requires i < |s| && QuotesClosed(cfg, s[i..])
    requires !(s[i] !in cfg.valueSeparators && s[i] in cfg.quoteCharacters && cfg.ignoreQuotedText)
    ensures QuotesClosed(cfg, s[i + 1..])
  {
    var u := s[i..];
    assert u[1..] == s[i + 1..];
  }

  /** Every step of the scan keeps it on course. */
  lemma ScanAdvance(cfg: Config, s: string, table: seq<seq<string>>, p: Position)
    requires p.index < |s| && QuotesClosed(cfg, s[p.index..])
    requires Scanned(cfg, s, table, p)
    ensures Scanned(cfg, s, table, Advance(cfg, s, p))
  {
    var c := s[p.index];
    if c in cfg.valueSeparators {
      ScanValueSeparator(cfg, s, table, p);
      AdvanceValue(cfg, s, p);
    } else if c in cfg.quoteCharacters && cfg.ignoreQuotedText {
      var n := QuoteLen(cfg.quoteCharacters, s[p.index + 1..]);
      SplitQuotedSpan(cfg, s, p.index, n);
      ScanQuotedSpan(cfg, s, table, p, n);
      AdvanceQuoted(cfg, s, p, n);
    } else if c in cfg.rowSeparators && c !in cfg.quoteCharacters {
      ScanRowSeparator(cfg, s, table, p);
      AdvanceRow(cfg, s, p);
    } else {
      ScanText(cfg, s, table, p);
      AdvanceText(cfg, s, p);
    }
  }

  // Where one step of the scan goes, per kind of character.

  lemma AdvanceValue(cfg: Config, s: string, p: Position)
    requires p.index < |s| && s[p.index] in cfg.valueSeparators
    ensures Advance(cfg, s, p) == Position(p.index + 1, p.rows, p.cells + [p.acc], "")
  {
  }

  lemma AdvanceQuoted(cfg: Config, s: string, p: Position, n: nat)
    requires p.index < |s| && s[p.index] !in cfg.valueSeparators
    requires s[p.index] in cfg.quoteCharacters && cfg.ignoreQuotedText
    requires n == QuoteLen(cfg.quoteCharacters, s[p.index + 1..])
    ensures Advance(cfg, s, p) == Position(p.index + n + 2, p.rows, p.cells, p.acc + s[p.index + 1..p.index + 1 + n])
  {
  }

  lemma AdvanceRow(cfg: Config, s: string, p: Position)
    requires p.index < |s| && s[p.index] !in cfg.valueSeparators && s[p.index] !in cfg.quoteCharacters
    requires s[p.index] in cfg.rowSeparators
    ensures Advance(cfg, s, p) == Position(p.index + 1, p.rows + [p.cells + [p.acc]], [], "")
  {
  }

  lemma AdvanceText(cfg: Config, s: string, p: Position)
    requires p.index < |s| && s[p.index] !in cfg.valueSeparators
    requires s[p.index] in cfg.quoteCharacters ==> !cfg.ignoreQuotedText
    requires s[p.index] in cfg.rowSeparators ==> s[p.index] in cfg.quoteCharacters
    ensures Advance(cfg, s, p) == Position(p.index + 1, p.rows, p.cells, p.acc + [s[p.index]])
  {
  }

  /** Where the scan that starts at `p` ends: the rows it has when it runs out of text. */
  ghost function ScanFrom(cfg: Config, s: string, p: Position): (t: seq<seq<string>>)
    decreases |s| - p.index
  {
    if |s| <= p.index then p.rows + [p.cells + [p.acc]]
    else ScanFrom(cfg, s, Advance(cfg, s, p))
  }

  /** No step of the scan from `p` runs past the end of the text. */
  ghost predicate Completes(cfg: Config, s: string, i: nat)
    decreases |s| - i
  {
    i <= |s| && (i < |s| ==> Completes(cfg, s, StepEnd(cfg, s, i)))
  }

  /**
   * A scan that is on course completes, and what it ends with is the table
   * it was on course to.
   */
  lemma {:induction false} ScanFromSplit(cfg: Config, s: string, table: seq<seq<string>>, p: Position)
    requires Scanned(cfg, s, table, p) && QuotesClosed(cfg, s[p.index..])
    ensures Completes(cfg, s, p.index) && ScanFrom(cfg, s, p) == table
    decreases |s| - p.index
  {
    if p.index == |s| {
      assert s[p.index..] == [];
      GlueEnd(p.rows, p.cells, p.acc);
    } else {
      ScanAdvance(cfg, s, table, p);
      ClosedStep(cfg, s, p.index);
      ScanFromSplit(cfg, s, table, Advance(cfg, s, p));
    }
  }

  /** The scan from the start of a text whose quoted spans are closed finds its split. */
  lemma ScanStart(cfg: Config, s: string)
    requires QuotesClosed(cfg, s)
    ensures Completes(cfg, s, 0)
    ensures ScanFrom(cfg, s, Position(0, [], [], "")) == Split(cfg, s)
  {
    GlueStart(Split(cfg, s));
    assert s[0..] == s;
    ScanFromSplit(cfg, s, Split(cfg, s), Position(0, [], [], ""));
  }

  /**
   * When the scan has run out of text, the events delivered so far are the
   * complete stream for the table it was on course to, and the counters
   * point at its last row and last cell.
   */
  lemma ScanEnd(cfg: Config, s: string, table: seq<seq<string>>, p: Position, prefix: seq<Event>, tr: seq<Event>)
    requires Completes(cfg, s, p.index) && |s| <= p.index && ScanFrom(cfg, s, p) == table
    requires tr == prefix + Progress(p.rows, p.cells)
      + [FoundCell(p.acc, |p.rows|, |p.cells|), DidEndRow(|p.rows|, |p.cells| + 1), DidEndDocument]
    ensures tr == prefix + Trace(table)
    ensures |table| == |p.rows| + 1 && |table[|table| - 1]| == |p.cells| + 1
  {
    assert table == p.rows + [p.cells + [p.acc]];
    ProgressEnd(p.rows, p.cells, p.acc);
  }

  // ---------------------------------------------------------------------
  // The parser

  class Parser {
    const rowSeparators: seq<char>
    const valueSeparators: seq<char>
    const quoteCharacters: seq<char>
    const contents: string
    var shouldIgnoreQuotedText: bool
    var shouldReplaceCRLF: bool
    var rowNum: nat
    var columnNum: nat
    /** The events delivered to the delegate so far, oldest first. */
    var trace: seq<Event>

    constructor (contents: string,
                 rowSeparators: seq<char> := DefaultRowSeparators,
                 valueSeparators: seq<char> := DefaultValueSeparators,
                 quoteCharacters: seq<char> := DefaultQuoteCharacters)
      ensures this.contents == contents && this.rowSeparators == rowSeparators
      ensures this.valueSeparators == valueSeparators && this.quoteCharacters == quoteCharacters
      ensures shouldIgnoreQuotedText && shouldReplaceCRLF
      ensures rowNum == 0 && columnNum == 0 && trace == []
    {
      this.contents := contents;
      this.rowSeparators := rowSeparators;
      this.valueSeparators := valueSeparators;
      this.quoteCharacters := quoteCharacters;
      shouldIgnoreQuotedText := true;
      shouldReplaceCRLF := true;
      rowNum, columnNum := 0, 0;
      trace := [];
    }

    function ScanConfig(): Config
      reads this`shouldIgnoreQuotedText
    {
      Config(Members(rowSeparators), Members(valueSeparators), Members(quoteCharacters), shouldIgnoreQuotedText)
    }

    /** The characters the scan walks over: `contents`, CRLF-normalised when asked to. */
    function Characters(): string
      reads this`shouldReplaceCRLF
      requires shouldReplaceCRLF ==> |rowSeparators| > 0
    {
      if shouldReplaceCRLF then ReplaceCRLF(contents, rowSeparators[0]) else contents
    }

    /** `parse()`. */
    method Parse()
      requires shouldReplaceCRLF ==> |rowSeparators| > 0
      requires QuotesClosed(ScanConfig(), Characters())
      modifies this`rowNum, this`columnNum, this`trace
      ensures trace == old(trace) + Trace(Split(ScanConfig(), Characters()))
      ensures var t := Split(ScanConfig(), Characters());
        rowNum == |t| - 1 && columnNum == |t[|t| - 1]| - 1
    {
      var chars := Characters();
      ghost var cfg := ScanConfig();
      var acc := StartDocument();
      var index := 0;
      ghost var rows: seq<seq<string>> := [];
      ghost var cells: seq<string> := [];
      ghost var table := Split(cfg, chars);
      ScanStart(cfg, chars);
      assert CellEvents([], 0) == [];
      while index < |chars|
        invariant Completes(cfg, chars, index)
        invariant ScanFrom(cfg, chars, Position(index, rows, cells, acc)) == table
        invariant rowNum == |rows| && columnNum == |cells|
        invariant trace == old(trace) + Progress(rows, cells)
      {
        acc, index, rows, cells := ParseCharacter(chars, acc, index, cfg, rows, cells, old(trace));
      }
      EndDocument(acc);
      ScanEnd(cfg, chars, table, Position(index, rows, cells, acc), old(trace), trace);
    }

    /**
     * One pass of the loop in `parse`: the character at `index` ends a cell,
     * ends a row, opens a quoted span or joins the current cell.
     */
    method ParseCharacter(chars: string, acc: string, index: nat, ghost cfg: Config,
                          ghost rows: seq<seq<string>>, ghost cells: seq<string>, ghost before: seq<Event>)
      returns (acc': string, index': nat, ghost rows': seq<seq<string>>, ghost cells': seq<string>)
      requires index < |chars| && cfg == ScanConfig()
      requires rowNum == |rows| && columnNum == |cells| && trace == before + Progress(rows, cells)
      modifies this`rowNum, this`columnNum, this`trace
      ensures Position(index', rows', cells', acc') == Advance(cfg, chars, Position(index, rows, cells, acc))
      ensures rowNum == |rows'| && columnNum == |cells'| && trace == before + Progress(rows', cells')
    {
      var c := chars[index];
      rows', cells' := rows, cells;
      if c in valueSeparators {
        ProgressCell(rows, cells, acc);
        cells' := cells + [acc];
        acc' := ParseValueSeparator(acc);
        index' := index;
      } else if c in quoteCharacters {
        acc', index' := ParseQuotedText(chars, acc, index);
      } else if c in rowSeparators {
        ProgressRow(rows, cells, acc);
        rows', cells' := rows + [cells + [acc]], [];
        acc' := ParseRowSeparator(acc);
        index' := index;
      } else {
        acc' := acc + [c];
        index' := index;
      }
      index' := index' + 1;
    }

    /** `startDocument`: reset the counters, open the document and row 0. */
    method StartDocument() returns (acc: string)
      modifies this`rowNum, this`columnNum, this`trace
      ensures acc == "" && rowNum == 0 && columnNum == 0
      ensures trace == old(trace) + [DidStartDocument, DidStartRow(0)]
    {
      acc := "";
      rowNum := 0;
      columnNum := 0;
      trace := trace + [DidStartDocument];
      trace := trace + [DidStartRow(0)];
    }

    /** `endDocument`: flush the last cell, close the last row and the document. */
    method EndDocument(acc: string)
      modifies this`trace
      ensures trace == old(trace) + [FoundCell(acc, rowNum, columnNum),
                                     DidEndRow(rowNum, columnNum + 1), DidEndDocument]
    {
      trace := trace + [FoundCell(acc, rowNum, columnNum)];
      trace := trace + [DidEndRow(rowNum, columnNum + 1)];
      trace := trace + [DidEndDocument];
    }

    /** `parseRowSeparator`: flush the cell, close the row, open the next one. */
    method ParseRowSeparator(acc: string) returns (acc': string)
      modifies this`rowNum, this`columnNum, this`trace
      ensures acc' == "" && rowNum == old(rowNum) + 1 && columnNum == 0
      ensures trace == old(trace) + [FoundCell(acc, old(rowNum), old(columnNum)),
                                     DidEndRow(old(rowNum), old(columnNum) + 1),
                                     DidStartRow(old(rowNum) + 1)]
    {
      acc' := ParseValueSeparator(acc);
      trace := trace + [DidEndRow(rowNum, columnNum)];
      rowNum := rowNum + 1;
      columnNum := 0;
      trace := trace + [DidStartRow(rowNum)];
    }

    /** `parseValueSeparator`: report the cell, move to the next column, clear the text. */
    method ParseValueSeparator(acc: string) returns (acc': string)
      modifies this`columnNum, this`trace
      ensures acc' == "" && columnNum == old(columnNum) + 1
      ensures trace == old(trace) + [FoundCell(acc, rowNum, old(columnNum))]
    {
      trace := trace + [FoundCell(acc, rowNum, columnNum)];
      columnNum := columnNum + 1;
      acc' := "";
    }

    /**
     * `parseQuotedText`, called with `index` on a quote character. With
     * quoting off the quote is ordinary text. With quoting on, the
     * characters after it up to the next quote character of any kind are
     * taken in verbatim, and the index is left on that closing quote (or at
     * the end of the text).
     */
    method ParseQuotedText(chars: string, acc: string, index: nat) returns (acc': string, index': nat)
      requires index < |chars| && chars[index] in quoteCharacters
      ensures !shouldIgnoreQuotedText ==> acc' == acc + [chars[index]] && index' == index
      ensures shouldIgnoreQuotedText ==>
        index' == index + 1 + QuoteLen(Members(quoteCharacters), chars[index + 1..])
        && acc' == acc + chars[index + 1..index']
    {
      if !shouldIgnoreQuotedText {
        acc' := acc + [chars[index]];
        index' := index;
        return;
      }
      acc' := acc;
      index' := index + 1;
      while index' < |chars|
        invariant index + 1 <= index' <= |chars|
        invariant acc' == acc + chars[index + 1..index']
        invariant forall k :: index + 1 <= k < index' ==> chars[k] !in quoteCharacters
      {
        var c := chars[index'];
        if c in quoteCharacters {
          QuoteLenIs(Members(quoteCharacters), chars[index + 1..], index' - index - 1);
          return;
        }
        acc' := acc' + [c];
        index' := index' + 1;
      }
      QuoteLenIs(Members(quoteCharacters), chars[index + 1..], index' - index - 1);
    }
  }

  /** `QuoteLen` is the only length with its two properties. */
  lemma {:induction false} QuoteLenIs(quotes: set<char>, s: string, n: nat)
    requires n <= |s|
    requires forall k :: 0 <= k < n ==> s[k] !in quotes
    requires n < |s| ==> s[n] in quotes
    ensures QuoteLen(quotes, s) == n
    decreases n
  {
    if n > 0 {
      assert s[0] !in quotes;
      assert forall k :: 0 <= k < n - 1 ==> s[1..][k] == s[k + 1];
      QuoteLenIs(quotes, s[1..], n - 1);
    }
  }
}
