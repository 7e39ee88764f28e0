/**
 * What the tokenizer's output says about its input (Sources/ABCSVParser.swift).
 *
 * Each character of the scanned text plays one role: it ends a cell, ends
 * a row, opens or closes a quoted span, or is cell text. The facts here
 * relate the table `Split` finds, and the event stream `Trace` that
 * reports it, to those roles: the cell texts are the text characters in
 * order, there is one more cell than there are separators, and the
 * stream follows the delegate protocol.
 */
module CsvScanFacts {
  import opened CsvParser

  /** The part one character plays in the scan. */
  datatype Role = CellBreak | RowBreak | Mark | Content

  /** `n` characters of cell text. */
  function Contents(n: nat): (r: seq<Role>)
    ensures |r| == n && forall k :: 0 <= k < n ==> r[k] == Content
  {
    seq(n, _ => Content)
  }

  /** The role of each character of `s`, as the scan of `s` assigns them. */
  function Roles(cfg: Config, s: string): (r: seq<Role>)
    ensures |r| == |s|
    decreases |s|
  {
    if s == [] then []
    else if s[0] in cfg.valueSeparators then [CellBreak] + Roles(cfg, s[1..])
    else if s[0] in cfg.quoteCharacters && cfg.ignoreQuotedText then
      var n := QuoteLen(cfg.quoteCharacters, s[1..]);
      if 1 + n == |s| then [Mark] + Contents(n)
      else [Mark] + Contents(n) + [Mark] + Roles(cfg, s[n + 2..])
    else if s[0] in cfg.rowSeparators && s[0] !in cfg.quoteCharacters then [RowBreak] + Roles(cfg, s[1..])
    else [Content] + Roles(cfg, s[1..])
  }

  /** The role a character has when quoting is off: it depends on the character alone. */
  function RoleOf(cfg: Config, c: char): Role
  {
    if c in cfg.valueSeparators then CellBreak
    else if c in cfg.rowSeparators && c !in cfg.quoteCharacters then RowBreak
    else Content
  }

  /** The characters of `s` whose role is `Content`, in order. */
  function Kept(s: string, r: seq<Role>): (k: string)
    requires |r| == |s|
    ensures |k| <= |s|
    decreases |s|
  {
    if s == [] then []
    else (if r[0] == Content then [s[0]] else []) + Kept(s[1..], r[1..])
  }

  /** How many entries of `r` are `x`. */
  function Count(r: seq<Role>, x: Role): (n: nat)
    ensures n <= |r|
    decreases |r|
  {
    if r == [] then 0
    else (if r[0] == x then 1 else 0) + Count(r[1..], x)
  }

  /** The texts of a row, run together. */
  function Concat(row: seq<string>): string
    decreases |row|
  {
    if row == [] then [] else row[0] + Concat(row[1..])
  }

  /** The texts of a table, row by row, run together. */
  function Flatten(t: seq<seq<string>>): string
    decreases |t|
  {
    if t == [] then [] else Concat(t[0]) + Flatten(t[1..])
  }

  /** The number of cells of a table. */
  function CellCount(t: seq<seq<string>>): nat
    decreases |t|
  {
    if t == [] then 0 else |t[0]| + CellCount(t[1..])
  }

  // ---------------------------------------------------------------------
  // Sequence algebra for the definitions above

  lemma {:induction false} KeptAppend(a: string, ra: seq<Role>, b: string, rb: seq<Role>)
    requires |ra| == |a| && |rb| == |b|
    ensures Kept(a + b, ra + rb) == Kept(a, ra) + Kept(b, rb)
    decreases |a|
  {
    if a == [] {
      assert a + b == b && ra + rb == rb;
    } else {
      var ab, rab := a + b, ra + rb;
      var h: string := if ra[0] == Content then [a[0]] else [];
      assert ab[0] == a[0] && rab[0] == ra[0];
      assert ab[1..] == a[1..] + b && rab[1..] == ra[1..] + rb;
      assert Kept(ab, rab) == h + Kept(a[1..] + b, ra[1..] + rb);
      assert Kept(a, ra) == h + Kept(a[1..], ra[1..]);
      KeptAppend(a[1..], ra[1..], b, rb);
    }
  }

  lemma {:induction false} KeptContents(x: string)
    ensures Kept(x, Contents(|x|)) == x
    decreases |x|
  {
    if x != [] {
      assert Contents(|x|)[1..] == Contents(|x| - 1);
      KeptContents(x[1..]);
      assert x == [x[0]] + x[1..];
    }
  }

  lemma {:induction false} CountAppend(a: seq<Role>, b: seq<Role>, x: Role)
    ensures Count(a + b, x) == Count(a, x) + Count(b, x)
    decreases |a|
  {
    if a == [] {
      assert a + b == b;
    } else {
      assert (a + b)[1..] == a[1..] + b;
      CountAppend(a[1..], b, x);
    }
  }

  lemma {:induction false} CountContents(n: nat, x: Role)
    requires x != Content
    ensures Count(Contents(n), x) == 0
    decreases n
  {
    if n > 0 {
      assert Contents(n)[1..] == Contents(n - 1);
      CountContents(n - 1, x);
    }
  }

  lemma FlattenPrepend(x: string, t: seq<seq<string>>)
    requires Headed(t)
    ensures Flatten(PrependText(x, t)) == x + Flatten(t)
    ensures CellCount(PrependText(x, t)) == CellCount(t)
  {
    var p := PrependText(x, t);
    assert p[0] == [x + t[0][0]] + t[0][1..] && p[1..] == t[1..];
    assert p[0][1..] == t[0][1..];
    assert Concat(p[0]) == x + t[0][0] + Concat(t[0][1..]);
  }

  lemma FlattenValueSeparator(r: seq<seq<string>>)
    requires Headed(r)
    ensures Flatten([[""] + r[0]] + r[1..]) == Flatten(r)
    ensures CellCount([[""] + r[0]] + r[1..]) == CellCount(r) + 1
  {
    var row := [""] + r[0];
    var t := [row] + r[1..];
    assert t[0] == row && t[1..] == r[1..];
    assert row[0] == "" && row[1..] == r[0];
    assert Concat(row) == Concat(r[0]) by {
      assert Concat(row) == "" + Concat(row[1..]);
    }
    assert Flatten(r) == Concat(r[0]) + Flatten(r[1..]);
    assert Flatten(t) == Concat(row) + Flatten(r[1..]);
    assert CellCount(t) == |row| + CellCount(r[1..]);
  }

  lemma FlattenRowSeparator(r: seq<seq<string>>)
    ensures Flatten([[""]] + r) == Flatten(r)
    ensures CellCount([[""]] + r) == CellCount(r) + 1
  {
    var t := [[""]] + r;
    assert t[1..] == r;
    var row: seq<string> := [""];
    assert Concat(row) == "" + Concat(row[1..]);
  }

  // ---------------------------------------------------------------------
  // Text conservation and counts

  /**
   * The cell texts of the table, in order, are exactly the characters
   * whose role is cell text: nothing is lost, duplicated or reordered.
   */
  lemma {:induction false} Conservation(cfg: Config, s: string)
    ensures Flatten(Split(cfg, s)) == Kept(s, Roles(cfg, s))
    decreases |s|
  {
    if s == [] {
    } else if s[0] in cfg.valueSeparators {
      Conservation(cfg, s[1..]);
      FlattenValueSeparator(Split(cfg, s[1..]));
      KeptFirst(s, CellBreak, Roles(cfg, s[1..]));
    } else if s[0] in cfg.quoteCharacters && cfg.ignoreQuotedText {
      var n := QuoteLen(cfg.quoteCharacters, s[1..]);
      if 1 + n == |s| {
        ConservationOpenSpan(cfg, s);
      } else {
        Conservation(cfg, s[n + 2..]);
        ConservationSpan(cfg, s, n);
      }
    } else if s[0] in cfg.rowSeparators && s[0] !in cfg.quoteCharacters {
      Conservation(cfg, s[1..]);
      FlattenRowSeparator(Split(cfg, s[1..]));
      KeptFirst(s, RowBreak, Roles(cfg, s[1..]));
    } else {
      Conservation(cfg, s[1..]);
      FlattenPrepend([s[0]], Split(cfg, s[1..]));
      KeptFirst(s, Content, Roles(cfg, s[1..]));
    }
  }

  /** One unfolding of `Split` and `Roles` over a closed quoted span. */
  lemma SpanUnfolds(cfg: Config, s: string, n: nat)
    requires s != [] && s[0] !in cfg.valueSeparators && s[0] in cfg.quoteCharacters && cfg.ignoreQuotedText
    requires n == QuoteLen(cfg.quoteCharacters, s[1..]) && 1 + n < |s|
    ensures Split(cfg, s) == PrependText(s[1..1 + n], Split(cfg, s[n + 2..]))
    ensures Roles(cfg, s) == [Mark] + Contents(n) + [Mark] + Roles(cfg, s[n + 2..])
  {
    SplitSpan(cfg, s, n);
    RolesSpan(cfg, s, n);
  }

  lemma RolesSpan(cfg: Config, s: string, n: nat)
    requires s != [] && s[0] !in cfg.valueSeparators && s[0] in cfg.quoteCharacters && cfg.ignoreQuotedText
    requires n == QuoteLen(cfg.quoteCharacters, s[1..]) && 1 + n < |s|
    ensures Roles(cfg, s) == [Mark] + Contents(n) + [Mark] + Roles(cfg, s[n + 2..])
  {
  }

  lemma ConservationOpenSpan(cfg: Config, s: string)
    requires s != [] && s[0] !in cfg.valueSeparators && s[0] in cfg.quoteCharacters && cfg.ignoreQuotedText
    requires 1 + QuoteLen(cfg.quoteCharacters, s[1..]) == |s|
    ensures Flatten(Split(cfg, s)) == Kept(s, Roles(cfg, s))
  {
    KeptOpenSpan(s);
    assert Split(cfg, s) == [[s[1..]]];
    assert Flatten([[s[1..]]]) == s[1..] by {
      assert Concat([s[1..]]) == s[1..] + Concat([]);
    }
  }

  lemma ConservationSpan(cfg: Config, s: string, n: nat)
    requires s != [] && s[0] !in cfg.valueSeparators && s[0] in cfg.quoteCharacters && cfg.ignoreQuotedText
    requires n == QuoteLen(cfg.quoteCharacters, s[1..]) && 1 + n < |s|
    requires Flatten(Split(cfg, s[n + 2..])) == Kept(s[n + 2..], Roles(cfg, s[n + 2..]))
    ensures Flatten(Split(cfg, s)) == Kept(s, Roles(cfg, s))
  {
    var rest := s[n + 2..];
    SpanUnfolds(cfg, s, n);
    FlattenPrepend(s[1..1 + n], Split(cfg, rest));
    var x, tail := s[1..1 + n], s[n + 1..];
    KeptContents(x);
    KeptSpan(s, Contents(n), Roles(cfg, rest), x, tail);
    assert tail[1..] == rest;
  }

  lemma KeptFirst(s: string, x: Role, r: seq<Role>)
    requires |s| > 0 && |r| == |s| - 1
    ensures x == Content ==> Kept(s, [x] + r) == [s[0]] + Kept(s[1..], r)
    ensures x != Content ==> Kept(s, [x] + r) == Kept(s[1..], r)
  {
    assert ([x] + r)[1..] == r;
    if x != Content {
      assert [] + Kept(s[1..], r) == Kept(s[1..], r);
    }
  }


  /** An unclosed span keeps everything after its opening quote. */
  lemma KeptOpenSpan(s: string)
    requires |s| > 0
    ensures Kept(s, [Mark] + Contents(|s| - 1)) == s[1..]
  {
    KeptFirst(s, Mark, Contents(|s| - 1));
    KeptContents(s[1..]);
  }

  /** A closed span keeps what lies between its quotes. */
  lemma KeptSpan(s: string, c: seq<Role>, r: seq<Role>, x: string, tail: string)
    requires |c| + 2 <= |s| && |r| == |s| - |c| - 2
    requires x == s[1..1 + |c|] && tail == s[|c| + 1..]
    requires Kept(x, c) == x
    ensures Kept(s, [Mark] + c + [Mark] + r) == x + Kept(tail[1..], r)
  {
    KeptOpening(s, c, r, x, tail);
    KeptAppend(x, c, tail, [Mark] + r);
    KeptFirst(tail, Mark, r);
  }



  lemma KeptOpening(s: string, c: seq<Role>, r: seq<Role>, x: string, tail: string)
    requires |c| + 2 <= |s| && |r| == |s| - |c| - 2
    requires x == s[1..1 + |c|] && tail == s[|c| + 1..]
    ensures Kept(s, [Mark] + c + [Mark] + r) == Kept(x + tail, c + ([Mark] + r))
  {
    assert [Mark] + c + [Mark] + r == [Mark] + (c + ([Mark] + r));
    KeptFirst(s, Mark, c + ([Mark] + r));
    assert s[1..] == x + tail;
  }




  /**
   * Every cell separator and every row separator ends exactly one cell, so
   * there is one cell more than there are separators.
   */
  lemma {:induction false} CellCounts(cfg: Config, s: string)
    ensures CellCount(Split(cfg, s)) == Count(Roles(cfg, s), CellBreak) + Count(Roles(cfg, s), RowBreak) + 1
    decreases |s|
  {
    var t, r := Split(cfg, s), Roles(cfg, s);
    if s == [] {
    } else if s[0] in cfg.valueSeparators {
      var t', r' := Split(cfg, s[1..]), Roles(cfg, s[1..]);
      CellCounts(cfg, s[1..]);
      assert t == [[""] + t'[0]] + t'[1..] && r == [CellBreak] + r';
      FlattenValueSeparator(t');
      CountFirst(CellBreak, r');
    } else if s[0] in cfg.quoteCharacters && cfg.ignoreQuotedText {
      var n := QuoteLen(cfg.quoteCharacters, s[1..]);
      if 1 + n == |s| {
        CellCountsOpenSpan(cfg, s);
      } else {
        CellCounts(cfg, s[n + 2..]);
        CellCountsSpan(cfg, s, n);
      }
    } else if s[0] in cfg.rowSeparators && s[0] !in cfg.quoteCharacters {
      var t', r' := Split(cfg, s[1..]), Roles(cfg, s[1..]);
      CellCounts(cfg, s[1..]);
      assert t == [[""]] + t' && r == [RowBreak] + r';
      FlattenRowSeparator(t');
      CountFirst(RowBreak, r');
    } else {
      var t', r' := Split(cfg, s[1..]), Roles(cfg, s[1..]);
      CellCounts(cfg, s[1..]);
      assert t == PrependText([s[0]], t') && r == [Content] + r';
      FlattenPrepend([s[0]], t');
      CountFirst(Content, r');
    }
  }

  lemma CellCountsOpenSpan(cfg: Config, s: string)
    requires s != [] && s[0] !in cfg.valueSeparators && s[0] in cfg.quoteCharacters && cfg.ignoreQuotedText
    requires 1 + QuoteLen(cfg.quoteCharacters, s[1..]) == |s|
    ensures CellCount(Split(cfg, s)) == Count(Roles(cfg, s), CellBreak) + Count(Roles(cfg, s), RowBreak) + 1
  {
    var n := |s| - 1;
    assert Split(cfg, s) == [[s[1..]]] && Roles(cfg, s) == [Mark] + Contents(n);
    CountContents(n, CellBreak);
    CountContents(n, RowBreak);
    CountOpenSpan(Contents(n), CellBreak);
    CountOpenSpan(Contents(n), RowBreak);
    assert CellCount([[s[1..]]]) == 1 + CellCount([]);
  }

  lemma CellCountsSpan(cfg: Config, s: string, n: nat)
    requires s != [] && s[0] !in cfg.valueSeparators && s[0] in cfg.quoteCharacters && cfg.ignoreQuotedText
    requires n == QuoteLen(cfg.quoteCharacters, s[1..]) && 1 + n < |s|
    requires var r' := Roles(cfg, s[n + 2..]);
      CellCount(Split(cfg, s[n + 2..])) == Count(r', CellBreak) + Count(r', RowBreak) + 1
    ensures CellCount(Split(cfg, s)) == Count(Roles(cfg, s), CellBreak) + Count(Roles(cfg, s), RowBreak) + 1
  {
    var rest := s[n + 2..];
    var t', r' := Split(cfg, rest), Roles(cfg, rest);
    SpanUnfolds(cfg, s, n);
    CountContents(n, CellBreak);
    CountContents(n, RowBreak);
    FlattenPrepend(s[1..1 + n], t');
    CountSpan(Contents(n), r', CellBreak);
    CountSpan(Contents(n), r', RowBreak);
  }

  /** Every row separator ends a row, so there is one row more than there are row separators. */
  lemma {:induction false} RowCounts(cfg: Config, s: string)
    ensures |Split(cfg, s)| == Count(Roles(cfg, s), RowBreak) + 1
    decreases |s|
  {
    var t, r := Split(cfg, s), Roles(cfg, s);
    if s == [] {
    } else if s[0] in cfg.valueSeparators {
      var t', r' := Split(cfg, s[1..]), Roles(cfg, s[1..]);
      RowCounts(cfg, s[1..]);
      assert t == [[""] + t'[0]] + t'[1..] && r == [CellBreak] + r';
      CountFirst(CellBreak, r');
    } else if s[0] in cfg.quoteCharacters && cfg.ignoreQuotedText {
      var n := QuoteLen(cfg.quoteCharacters, s[1..]);
      CountContents(n, RowBreak);
      if 1 + n == |s| {
        assert t == [[s[1..]]] && r == [Mark] + Contents(n);
        CountOpenSpan(Contents(n), RowBreak);
      } else {
        var rest := s[n + 2..];
        var t', r' := Split(cfg, rest), Roles(cfg, rest);
        RowCounts(cfg, rest);
        assert t == PrependText(s[1..1 + n], t') && r == [Mark] + Contents(n) + [Mark] + r';
        CountSpan(Contents(n), r', RowBreak);
      }
    } else if s[0] in cfg.rowSeparators && s[0] !in cfg.quoteCharacters {
      var t', r' := Split(cfg, s[1..]), Roles(cfg, s[1..]);
      RowCounts(cfg, s[1..]);
      assert t == [[""]] + t' && r == [RowBreak] + r';
      CountFirst(RowBreak, r');
    } else {
      var t', r' := Split(cfg, s[1..]), Roles(cfg, s[1..]);
      RowCounts(cfg, s[1..]);
      assert t == PrependText([s[0]], t') && r == [Content] + r';
      CountFirst(Content, r');
    }
  }

  lemma CountFirst(y: Role, r: seq<Role>)
    ensures forall x :: Count([y] + r, x) == (if x == y then 1 else 0) + Count(r, x)
  {
    assert ([y] + r)[1..] == r;
  }

  lemma CountOpenSpan(c: seq<Role>, x: Role)
    requires x != Mark && Count(c, x) == 0
    ensures Count([Mark] + c, x) == 0
  {
    CountFirst(Mark, c);
  }

  lemma CountSpan(c: seq<Role>, r: seq<Role>, x: Role)
    requires x != Mark && Count(c, x) == 0
    ensures Count([Mark] + c + [Mark] + r, x) == Count(r, x)
  {
    CountOpenSpan(c, x);
    CountAppend([Mark] + c, [Mark] + r, x);
    assert [Mark] + c + [Mark] + r == ([Mark] + c) + ([Mark] + r);
    CountFirst(Mark, r);
  }


  /** Every row of the table has at least one cell. */
  lemma {:induction false} SplitRowsNonEmpty(cfg: Config, s: string)
    ensures IsTable(Split(cfg, s))
    decreases |s|
  {
    if s == [] {
    } else if s[0] in cfg.valueSeparators {
      SplitRowsNonEmpty(cfg, s[1..]);
    } else if s[0] in cfg.quoteCharacters && cfg.ignoreQuotedText {
      var n := QuoteLen(cfg.quoteCharacters, s[1..]);
      if 1 + n < |s| {
        SplitRowsNonEmpty(cfg, s[n + 2..]);
      }
    } else if s[0] in cfg.rowSeparators && s[0] !in cfg.quoteCharacters {
      var r := Split(cfg, s[1..]);
      SplitRowsNonEmpty(cfg, s[1..]);
      assert forall i :: 1 <= i < |[[""]] + r| ==> ([[""]] + r)[i] == r[i - 1];
    } else {
      SplitRowsNonEmpty(cfg, s[1..]);
    }
  }

  // ---------------------------------------------------------------------
  // Which characters play which role

  /** Every character of a quoted span before its closing quote is no quote character. */
  lemma {:induction false} QuoteLenClear(quotes: set<char>, s: string)
    ensures forall k :: 0 <= k < QuoteLen(quotes, s) ==> s[k] !in quotes
    decreases |s|
  {
    if s != [] && s[0] !in quotes {
      QuoteLenClear(quotes, s[1..]);
      assert forall k :: 1 <= k < QuoteLen(quotes, s) ==> s[k] == s[1..][k - 1];
    }
  }

  /** The roles a character can have, given what sets it is in. */
  predicate Fits(cfg: Config, c: char, role: Role)
  {
    match role
    case CellBreak => c in cfg.valueSeparators
    case RowBreak => c in cfg.rowSeparators && c !in cfg.valueSeparators && c !in cfg.quoteCharacters
    case Mark => c in cfg.quoteCharacters && cfg.ignoreQuotedText
    case Content => c in cfg.quoteCharacters ==> !cfg.ignoreQuotedText
  }

  /**
   * Separators only ever end cells and rows, quote marks only appear with
   * quoting on, and with quoting on no quote character is ever cell text.
   */
  lemma {:induction false} RolesFit(cfg: Config, s: string)
    ensures forall k :: 0 <= k < |s| ==> Fits(cfg, s[k], Roles(cfg, s)[k])
    decreases |s|
  {
    var r := Roles(cfg, s);
    if s == [] {
    } else if s[0] in cfg.valueSeparators
      || (s[0] !in cfg.quoteCharacters || !cfg.ignoreQuotedText) {
      RolesFit(cfg, s[1..]);
      assert r[1..] == Roles(cfg, s[1..]);
      forall k | 1 <= k < |s|
        ensures Fits(cfg, s[k], r[k])
      {
        assert s[k] == s[1..][k - 1] && r[k] == r[1..][k - 1];
      }
    } else {
      var n := QuoteLen(cfg.quoteCharacters, s[1..]);
      QuoteLenClear(cfg.quoteCharacters, s[1..]);
      if 1 + n == |s| {
        forall k | 1 <= k < |s|
          ensures Fits(cfg, s[k], r[k])
        {
          assert s[k] == s[1..][k - 1];
        }
      } else {
        var rest := s[n + 2..];
        RolesFit(cfg, rest);
        var head := [Mark] + Contents(n) + [Mark];
        assert r == head + Roles(cfg, rest);
        forall k | 1 <= k < |s|
          ensures Fits(cfg, s[k], r[k])
        {
          if k <= n {
            assert s[k] == s[1..][k - 1];
          } else if k > n + 1 {
            assert s[k] == rest[k - n - 2] && r[k] == Roles(cfg, rest)[k - n - 2];
          }
        }
      }
    }
  }

  /** With quoting off, each character's role depends on that character alone. */
  lemma {:induction false} RolesWithoutQuoting(cfg: Config, s: string)
    requires !cfg.ignoreQuotedText
    ensures forall k :: 0 <= k < |s| ==> Roles(cfg, s)[k] == RoleOf(cfg, s[k])
    decreases |s|
  {
    if s != [] {
      var r := Roles(cfg, s);
      RolesWithoutQuoting(cfg, s[1..]);
      assert r[1..] == Roles(cfg, s[1..]);
      forall k | 1 <= k < |s|
        ensures r[k] == RoleOf(cfg, s[k])
      {
        assert s[k] == s[1..][k - 1] && r[k] == r[1..][k - 1];
      }
    }
  }

  // ---------------------------------------------------------------------
  // The event stream

  /** The number of `foundCell` events in `es`. */
  function FoundCount(es: seq<Event>): nat
    decreases |es|
  {
    if es == [] then 0 else (if es[0].FoundCell? then 1 else 0) + FoundCount(es[1..])
  }

  /** The texts of the `foundCell` events in `es`, run together. */
  function FoundText(es: seq<Event>): string
    decreases |es|
  {
    if es == [] then [] else (if es[0].FoundCell? then es[0].contents else []) + FoundText(es[1..])
  }

  lemma {:induction false} FoundAppend(a: seq<Event>, b: seq<Event>)
    ensures FoundCount(a + b) == FoundCount(a) + FoundCount(b)
    ensures FoundText(a + b) == FoundText(a) + FoundText(b)
    decreases |a|
  {
    if a == [] {
      assert a + b == b;
    } else {
      assert (a + b)[1..] == a[1..] + b;
      FoundAppend(a[1..], b);
    }
  }

  lemma {:induction false} ConcatSnoc(row: seq<string>, x: string)
    ensures Concat(row + [x]) == Concat(row) + x
    decreases |row|
  {
    if row == [] {
      assert [x][1..] == [];
    } else {
      assert (row + [x])[1..] == row[1..] + [x];
      ConcatSnoc(row[1..], x);
    }
  }

  lemma {:induction false} FlattenSnoc(t: seq<seq<string>>, row: seq<string>)
    ensures Flatten(t + [row]) == Flatten(t) + Concat(row)
    ensures CellCount(t + [row]) == CellCount(t) + |row|
    decreases |t|
  {
    if t == [] {
      assert [row][1..] == [];
    } else {
      assert (t + [row])[1..] == t[1..] + [row];
      FlattenSnoc(t[1..], row);
    }
  }

  lemma {:induction false} FoundCells(cells: seq<string>, row: nat)
    ensures FoundCount(CellEvents(cells, row)) == |cells|
    ensures FoundText(CellEvents(cells, row)) == Concat(cells)
    decreases |cells|
  {
    if cells != [] {
      var init := cells[..|cells| - 1];
      var x := cells[|cells| - 1];
      assert cells == init + [x];
      FoundCells(init, row);
      CellEventsAppend(init, x, row);
      FoundAppend(CellEvents(init, row), [FoundCell(x, row, |init|)]);
      ConcatSnoc(init, x);
    }
  }

  lemma {:induction false} FoundBlocks(rows: seq<seq<string>>)
    ensures FoundCount(Blocks(rows)) == CellCount(rows)
    ensures FoundText(Blocks(rows)) == Flatten(rows)
    decreases |rows|
  {
    if rows != [] {
      var init := rows[..|rows| - 1];
      var last := rows[|rows| - 1];
      assert rows == init + [last];
      FoundBlocks(init);
      FoundCells(last, |init|);
      FoundAppend([DidStartRow(|init|)], CellEvents(last, |init|));
      FoundAppend([DidStartRow(|init|)] + CellEvents(last, |init|), [DidEndRow(|init|, |last|)]);
      FoundAppend(Blocks(init), RowBlock(last, |init|));
      FlattenSnoc(init, last);
    }
  }

  /** The stream reports every cell of the table once, and their texts in order. */
  lemma TraceFound(t: seq<seq<string>>)
    ensures FoundCount(Trace(t)) == CellCount(t)
    ensures FoundText(Trace(t)) == Flatten(t)
  {
    FoundBlocks(t);
    FoundAppend([DidStartDocument], Blocks(t));
    FoundAppend([DidStartDocument] + Blocks(t), [DidEndDocument]);
  }

  /**
   * What the parser reports about a text: the `foundCell` texts run
   * together are its cell-text characters, and there is one `foundCell`
   * more than there are separators outside quoted spans.
   */
  lemma ParseReports(cfg: Config, s: string)
    ensures FoundText(Trace(Split(cfg, s))) == Kept(s, Roles(cfg, s))
    ensures FoundCount(Trace(Split(cfg, s))) == Count(Roles(cfg, s), CellBreak) + Count(Roles(cfg, s), RowBreak) + 1
  {
    TraceFound(Split(cfg, s));
    Conservation(cfg, s);
    CellCounts(cfg, s);
  }

  // ---------------------------------------------------------------------
  // The delegate protocol

  /** Where a delegate stands in the protocol. */
  datatype Stage =
    | Before               // nothing delivered yet
    | BetweenRows(row: nat) // rows before `row` are closed
    | InRow(row: nat, column: nat) // `column` cells of row `row` delivered
    | After                // the document is closed
    | Broken               // an event out of order

  /** The stage after one more event. */
  function Next(st: Stage, e: Event): Stage
  {
    match (st, e)
    case (Before, DidStartDocument) => BetweenRows(0)
    case (BetweenRows(r), DidStartRow(r')) => if r' == r then InRow(r, 0) else Broken
    case (BetweenRows(r), DidEndDocument) => if r > 0 then After else Broken
    case (InRow(r, c), FoundCell(_, r', c')) => if r' == r && c' == c then InRow(r, c + 1) else Broken
    case (InRow(r, c), DidEndRow(r', n)) => if r' == r && n == c && c > 0 then BetweenRows(r + 1) else Broken
    case _ => Broken
  }

  /** The stage after a run of events. */
  function Run(st: Stage, es: seq<Event>): Stage
    decreases |es|
  {
    if es == [] then st else Run(Next(st, es[0]), es[1..])
  }

  /**
   * A complete, well-nested stream: one document, rows numbered 0, 1, ...,
   * each opened, given its cells in column order and closed with their
   * number, none empty, and nothing after the document ends.
   */
  predicate WellNested(es: seq<Event>)
  {
    Run(Before, es) == After
  }

  lemma {:induction false} RunAppend(st: Stage, a: seq<Event>, b: seq<Event>)
    ensures Run(st, a + b) == Run(Run(st, a), b)
    decreases |a|
  {
    if a == [] {
      assert a + b == b;
    } else {
      assert (a + b)[1..] == a[1..] + b;
      RunAppend(Next(st, a[0]), a[1..], b);
    }
  }

  lemma {:induction false} RunCells(cells: seq<string>, row: nat)
    ensures Run(InRow(row, 0), CellEvents(cells, row)) == InRow(row, |cells|)
    decreases |cells|
  {
    if cells != [] {
      var init := cells[..|cells| - 1];
      var x := cells[|cells| - 1];
      assert cells == init + [x];
      RunCells(init, row);
      CellEventsAppend(init, x, row);
      RunAppend(InRow(row, 0), CellEvents(init, row), [FoundCell(x, row, |init|)]);
    }
  }

  lemma {:induction false} RunBlocks(rows: seq<seq<string>>)
    requires forall i :: 0 <= i < |rows| ==> |rows[i]| > 0
    ensures Run(BetweenRows(0), Blocks(rows)) == BetweenRows(|rows|)
    decreases |rows|
  {
    if rows != [] {
      var init := rows[..|rows| - 1];
      var last := rows[|rows| - 1];
      assert rows == init + [last];
      RunBlocks(init);
      RunAppend(BetweenRows(0), Blocks(init), RowBlock(last, |init|));
      RunCells(last, |init|);
      RunAppend(BetweenRows(|init|), [DidStartRow(|init|)], CellEvents(last, |init|));
      RunAppend(BetweenRows(|init|), [DidStartRow(|init|)] + CellEvents(last, |init|), [DidEndRow(|init|, |last|)]);
    }
  }

  /** The stream for any table whose rows all have cells is well nested. */
  lemma TraceWellNested(t: seq<seq<string>>)
    requires IsTable(t)
    ensures WellNested(Trace(t))
  {
    RunBlocks(t);
    RunAppend(Before, [DidStartDocument], Blocks(t));
    RunAppend(Before, [DidStartDocument] + Blocks(t), [DidEndDocument]);
  }

  /** So is every stream the parser delivers. */
  lemma ParseWellNested(cfg: Config, s: string)
    ensures WellNested(Trace(Split(cfg, s)))
  {
    SplitRowsNonEmpty(cfg, s);
    TraceWellNested(Split(cfg, s));
  }

  /**
   * The stream opens the document and row 0, and closes with the last
   * cell, the end of the last row with its cell count, and the end of the
   * document.
   */
  lemma TraceEnds(t: seq<seq<string>>)
    requires IsTable(t)
    ensures var es := Trace(t); var r := |t| - 1; var c := |t[r]| - 1;
      |es| >= 5 && es[0] == DidStartDocument && es[1] == DidStartRow(0)
      && es[|es| - 3] == FoundCell(t[r][c], r, c)
      && es[|es| - 2] == DidEndRow(r, c + 1)
      && es[|es| - 1] == DidEndDocument
  {
    var r := |t| - 1;
    var init := t[..r];
    assert t == init + [t[r]];
    BlocksAppend(init, t[r]);
    var cells := CellEvents(t[r], r);
    var es := Trace(t);
    assert es == [DidStartDocument] + Blocks(init) + [DidStartRow(r)] + cells + [DidEndRow(r, |t[r]|)] + [DidEndDocument];
    if r > 0 {
      var first := t[..1];
      assert init == first + init[1..];
      BlocksStart(init);
    }
  }

  /** The first block of a table's events opens row 0. */
  lemma {:induction false} BlocksStart(rows: seq<seq<string>>)
    requires |rows| > 0
    ensures |Blocks(rows)| > 0 && Blocks(rows)[0] == DidStartRow(0)
    decreases |rows|
  {
    if |rows| > 1 {
      BlocksStart(rows[..|rows| - 1]);
      assert rows[..|rows| - 1][..|rows| - 2] == rows[..|rows| - 2];
    } else {
      assert rows[..0] == [];
    }
  }

  // ---------------------------------------------------------------------
  // Examples

  /** Empty text: one row holding one empty cell, reported in full. */
  lemma EmptyText(cfg: Config)
    ensures Split(cfg, "") == [[""]]
    ensures Trace(Split(cfg, "")) ==
      [DidStartDocument, DidStartRow(0), FoundCell("", 0, 0), DidEndRow(0, 1), DidEndDocument]
  {
    var t: seq<seq<string>> := [[""]];
    assert Split(cfg, "") == t;
    var none: seq<seq<string>> := [];
    assert t == none + [[""]];
    BlocksAppend(none, [""]);
    assert Blocks(none) == [];
    assert CellEvents([""], 0) == [FoundCell("", 0, 0)];
    assert RowBlock([""], 0) == [DidStartRow(0), FoundCell("", 0, 0), DidEndRow(0, 1)];
  }

  /** A character the scan takes as cell text wherever it stands outside a quoted span. */
  predicate Plain(cfg: Config, c: char)
  {
    c !in cfg.valueSeparators && c !in cfg.rowSeparators && c !in cfg.quoteCharacters
  }

  predicate AllPlain(cfg: Config, x: string)
  {
    forall k :: 0 <= k < |x| ==> Plain(cfg, x[k])
  }

  lemma PrependTwice(x: string, y: string, t: seq<seq<string>>)
    requires Headed(t)
    ensures PrependText(x, PrependText(y, t)) == PrependText(x + y, t)
  {
    assert x + (y + t[0][0]) == (x + y) + t[0][0];
  }

  /** A run of plain characters joins the first cell of what follows it. */
  lemma {:induction false} SplitPlain(cfg: Config, x: string, rest: string)
    requires AllPlain(cfg, x)
    ensures Split(cfg, x + rest) == PrependText(x, Split(cfg, rest))
    decreases |x|
  {
    if x == [] {
      var t := Split(cfg, rest);
      assert x + rest == rest;
      assert [[x + t[0][0]] + t[0][1..]] + t[1..] == t by {
        assert x + t[0][0] == t[0][0];
        assert [t[0][0]] + t[0][1..] == t[0];
      }
    } else {
      var u := x + rest;
      assert u[0] == x[0] && Plain(cfg, x[0]);
      assert u[1..] == x[1..] + rest;
      SplitText(cfg, u);
      SplitPlain(cfg, x[1..], rest);
      PrependTwice([x[0]], x[1..], Split(cfg, rest));
      assert [x[0]] + x[1..] == x;
    }
  }

  /** A plain text on its own is one row holding one cell. */
  lemma SplitPlainAlone(cfg: Config, x: string)
    requires AllPlain(cfg, x)
    ensures Split(cfg, x) == [[x]]
  {
    SplitPlain(cfg, x, "");
    assert x + "" == x;
    var t: seq<seq<string>> := [[""]];
    assert Split(cfg, "") == t;
    assert t[0][0] == "" && t[0][1..] == [] && t[1..] == [];
    assert [x + ""] + t[0][1..] == [x];
  }

  /** Text put in front of a table whose first row is known. */
  lemma PrependOnto(x: string, y: string, cells: seq<string>, rows: seq<seq<string>>)
    ensures PrependText(x, [[y] + cells] + rows) == [[x + y] + cells] + rows
  {
    var t := [[y] + cells] + rows;
    assert t[0][0] == y && t[0][1..] == cells && t[1..] == rows;
  }

  /** A value separator in front of a table whose first row is known. */
  lemma SplitValueOnto(cfg: Config, v: char, rest: string, cells: seq<string>, rows: seq<seq<string>>)
    requires v in cfg.valueSeparators && Split(cfg, rest) == [cells] + rows
    ensures Split(cfg, [v] + rest) == [[""] + cells] + rows
  {
    var u := [v] + rest;
    assert u[1..] == rest;
    SplitValueSeparator(cfg, u);
    assert ([cells] + rows)[1..] == rows;
  }

  /** A closed quoted span in front of more text. */
  lemma SplitQuotedOnto(cfg: Config, q: char, y: string, q': char, rest: string)
    requires cfg.ignoreQuotedText && q in cfg.quoteCharacters && q !in cfg.valueSeparators
    requires q' in cfg.quoteCharacters && forall k :: 0 <= k < |y| ==> y[k] !in cfg.quoteCharacters
    ensures Split(cfg, [q] + y + [q'] + rest) == PrependText(y, Split(cfg, rest))
  {
    var u := [q] + y + [q'] + rest;
    assert u[1..] == y + [q'] + rest;
    QuoteLenIs(cfg.quoteCharacters, u[1..], |y|);
    assert u[1..1 + |y|] == y && u[|y| + 2..] == rest;
  }

  /** Plain text in front of a one-row table joins its first cell. */
  lemma PlainOntoRow(cfg: Config, x: string, rest: string, w: string, row: seq<string>)
    requires AllPlain(cfg, x) && Split(cfg, rest) == [[w] + row]
    ensures Split(cfg, x + rest) == [[x + w] + row]
  {
    var none: seq<seq<string>> := [];
    assert [[w] + row] == [[w] + row] + none;
    SplitPlain(cfg, x, rest);
    PrependOnto(x, w, row, none);
    assert [[x + w] + row] + none == [[x + w] + row];
  }

  /** A text character in front of a one-row table joins its first cell. */
  lemma CharOntoRow(cfg: Config, c: char, rest: string, w: string, row: seq<string>)
    requires c !in cfg.valueSeparators && (c in cfg.quoteCharacters ==> !cfg.ignoreQuotedText)
    requires c in cfg.rowSeparators ==> c in cfg.quoteCharacters
    requires Split(cfg, rest) == [[w] + row]
    ensures Split(cfg, [c] + rest) == [[[c] + w] + row]
  {
    var none: seq<seq<string>> := [];
    var u := [c] + rest;
    assert u[0] == c && u[1..] == rest;
    assert [[w] + row] == [[w] + row] + none;
    SplitText(cfg, u);
    PrependOnto([c], w, row, none);
    assert [[[c] + w] + row] + none == [[[c] + w] + row];
  }

  /** A value separator in front of a one-row table opens an empty first cell. */
  lemma ValueOntoRow(cfg: Config, v: char, rest: string, row: seq<string>)
    requires v in cfg.valueSeparators && Split(cfg, rest) == [row]
    ensures Split(cfg, [v] + rest) == [[""] + row]
  {
    var none: seq<seq<string>> := [];
    assert [row] == [row] + none;
    SplitValueOnto(cfg, v, rest, row, none);
    assert [[""] + row] + none == [[""] + row];
  }

  /** A closed quoted span in front of a one-row table fills its empty first cell. */
  lemma QuotedOntoRow(cfg: Config, q: char, y: string, q': char, rest: string, row: seq<string>)
    requires cfg.ignoreQuotedText && q in cfg.quoteCharacters && q !in cfg.valueSeparators
    requires q' in cfg.quoteCharacters && forall k :: 0 <= k < |y| ==> y[k] !in cfg.quoteCharacters
    requires Split(cfg, rest) == [[""] + row]
    ensures Split(cfg, [q] + y + [q'] + rest) == [[y] + row]
  {
    var none: seq<seq<string>> := [];
    assert [[""] + row] == [[""] + row] + none;
    SplitQuotedOnto(cfg, q, y, q', rest);
    PrependOnto(y, "", row, none);
    assert y + "" == y;
    assert [[y + ""] + row] + none == [[y] + row];
  }

  /**
   * With quoting on, separators between two quote characters are cell
   * text: `x,"y",z` is the single row `x`, `y`, `z` whatever separators
   * `y` holds, and the closing quote may be any quote character.
   */
  lemma QuotedSeparatorsAreText(cfg: Config, x: string, v: char, q: char, y: string, q': char, z: string)
    requires cfg.ignoreQuotedText && AllPlain(cfg, x) && AllPlain(cfg, z)
    requires v in cfg.valueSeparators && v !in cfg.quoteCharacters
    requires q in cfg.quoteCharacters && q !in cfg.valueSeparators && q' in cfg.quoteCharacters
    requires forall k :: 0 <= k < |y| ==> y[k] !in cfg.quoteCharacters
    ensures Split(cfg, x + [v, q] + y + [q', v] + z) == [[x, y, z]]
  {
    var s3 := [v] + z;
    var s2 := [q] + y + [q'] + s3;
    var s1 := [v] + s2;
    assert x + s1 == x + [v, q] + y + [q', v] + z;
    assert x + "" == x && [x + ""] + ([y] + [z]) == [x, y, z];
    SplitPlainAlone(cfg, z);
    ValueOntoRow(cfg, v, z, [z]);
    QuotedOntoRow(cfg, q, y, q', s3, [z]);
    ValueOntoRow(cfg, v, s2, [y] + [z]);
    PlainOntoRow(cfg, x, s1, "", [y] + [z]);
  }

  /**
   * With quoting off the same text splits at every separator, and the
   * quote characters stay in the cell texts.
   */
  lemma UnquotedSeparatorsSplit(cfg: Config, x: string, v: char, q: char, y: string, y': string, z: string)
    requires !cfg.ignoreQuotedText && AllPlain(cfg, x) && AllPlain(cfg, y) && AllPlain(cfg, y') && AllPlain(cfg, z)
    requires v in cfg.valueSeparators && q !in cfg.valueSeparators && q !in cfg.rowSeparators
    ensures Split(cfg, x + [v, q] + y + [v] + y' + [q, v] + z) == [[x, [q] + y, y' + [q], z]]
  {
    var s2 := [q] + (y + ([v] + (y' + ([q] + ([v] + z)))));
    var s1 := [v] + s2;
    assert x + s1 == x + [v, q] + y + [v] + y' + [q, v] + z;
    var row := [[q] + y, y' + [q], z];
    assert x + "" == x && [x + ""] + row == [x, [q] + y, y' + [q], z];
    UnquotedTail(cfg, v, q, y, y', z);
    ValueOntoRow(cfg, v, s2, row);
    PlainOntoRow(cfg, x, s1, "", row);
  }

  lemma UnquotedTail(cfg: Config, v: char, q: char, y: string, y': string, z: string)
    requires !cfg.ignoreQuotedText && AllPlain(cfg, y) && AllPlain(cfg, y') && AllPlain(cfg, z)
    requires v in cfg.valueSeparators && q !in cfg.valueSeparators && q !in cfg.rowSeparators
    ensures Split(cfg, [q] + (y + ([v] + (y' + ([q] + ([v] + z)))))) == [[[q] + y, y' + [q], z]]
  {
    var s4 := [q] + ([v] + z);
    var s3 := [v] + (y' + s4);
    var r := [y' + ([q] + "")] + [z];
    assert [q] + "" == [q] && y + "" == y && [[q] + y] + r == [[q] + y, y' + [q], z];
    SplitPlainAlone(cfg, z);
    ValueOntoRow(cfg, v, z, [z]);
    CharOntoRow(cfg, q, [v] + z, "", [z]);
    PlainOntoRow(cfg, y', s4, [q] + "", [z]);
    ValueOntoRow(cfg, v, y' + s4, r);
    PlainOntoRow(cfg, y, s3, "", r);
    CharOntoRow(cfg, q, y + s3, y, r);
  }



}
