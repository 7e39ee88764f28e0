/**
 * The typed cell of a CSV table (Sources/ABCSVCell.swift).
 *
 * A cell is a closed variant: a header, a piece of text, an integer, a
 * decimal, a date, or nothing. Cells built from raw text are classified by
 * trimming the text and trying a date, an integer and a decimal reading in
 * that order.
 *
 * Foundation's date formatter, `Double(_:)` and the descriptions of `Double`
 * and `NSDate` cannot be reproduced here, so they are handed in as the
 * function fields of a `Conversions` record and their payloads are abstract
 * types. Trimming (the Unicode White_Space set) and Swift's `Int(_:)` and
 * `Int.description` are written out.
 */
module CsvCell {

  datatype Option<+T> = None | Some(value: T)

  /** The payload of a `Decimal` cell (a Swift `Double`). */
  type DecimalValue(==)

  /** The payload of a `Date` cell (an `NSDate`). */
  type DateValue(==)

  const MinInt64: int := -0x8000_0000_0000_0000
  const MaxInt64: int := 0x7FFF_FFFF_FFFF_FFFF

  /** Swift's `Int` on a 64-bit platform. */
  type Int64 = x: int | -0x8000_0000_0000_0000 <= x <= 0x7FFF_FFFF_FFFF_FFFF

  /** The Foundation routines the cell model calls but does not define. */
  datatype Conversions = Conversions(
    dateFromString: string -> Option<DateValue>,   // NSDateFormatter().dateFromString
    doubleFromString: string -> Option<DecimalValue>, // Double(_:)
    dateDescription: DateValue -> string,          // NSDate.description
    doubleDescription: DecimalValue -> string,     // Double.description
    doubleEquals: (DecimalValue, DecimalValue) -> bool) // Double's ==

  datatype Cell =
    | Header(contents: string)
    | Text(contents: string)
    | Integer(integer: Int64)
    | Decimal(decimal: DecimalValue)
    | Date(date: DateValue)
    | Empty

  /** What `value` returns for a non-empty cell (Swift's `Any`). */
  datatype Payload =
    | StringPayload(s: string)
    | IntPayload(i: Int64)
    | DoublePayload(d: DecimalValue)
    | DatePayload(t: DateValue)

  // ---------------------------------------------------------------------
  // Trimming: NSCharacterSet.whitespaceAndNewlineCharacterSet()

  /** The Unicode White_Space characters. */
  predicate IsWhitespaceOrNewline(c: char)
  {
    ('\t' <= c <= '\r') || c == ' ' || c == '\U{85}' || c == '\U{A0}' || c == '\U{1680}'
    || ('\U{2000}' <= c <= '\U{200A}') || c == '\U{2028}' || c == '\U{2029}'
    || c == '\U{202F}' || c == '\U{205F}' || c == '\U{3000}'
  }

  predicate AllWhitespace(s: string)
  {
    forall k :: 0 <= k < |s| ==> IsWhitespaceOrNewline(s[k])
  }

  /** Drops the leading white space of `s`. */
  function TrimStart(s: string): (r: string)
    ensures |r| <= |s| && r == s[|s| - |r|..]
    ensures AllWhitespace(s[..|s| - |r|])
    ensures r == [] || !IsWhitespaceOrNewline(r[0])
    decreases |s|
  {
    if s != [] && IsWhitespaceOrNewline(s[0]) then
      var r := TrimStart(s[1..]);
      assert s[1..][..|s| - 1 - |r|] == s[1..|s| - |r|];
      r
    else s
  }

  /** Drops the trailing white space of `s`. */
  function TrimEnd(s: string): (r: string)
    ensures |r| <= |s| && r == s[..|r|]
    ensures AllWhitespace(s[|r|..])
    ensures r == [] || !IsWhitespaceOrNewline(r[|r| - 1])
    decreases |s|
  {
    if s != [] && IsWhitespaceOrNewline(s[|s| - 1]) then
      var r := TrimEnd(s[..|s| - 1]);
      assert s[|r|..] == s[..|s| - 1][|r|..] + [s[|s| - 1]];
      r
    else s
  }

  /** `stringByTrimmingCharactersInSet(whitespaceAndNewlineCharacterSet())`. */
  function Trim(s: string): (r: string)
    ensures |r| <= |s|
    ensures r == [] <==> AllWhitespace(s)
    ensures r != [] ==> !IsWhitespaceOrNewline(r[0]) && !IsWhitespaceOrNewline(r[|r| - 1])
  {
    var front := TrimStart(s);
    var r := TrimEnd(front);
    assert r == [] ==> s == s[..|s| - |front|] + front[|r|..];
    assert r != [] ==> r[0] == front[0];
    r
  }

  lemma TrimKeepsTrimmed(s: string)
    requires s == [] || (!IsWhitespaceOrNewline(s[0]) && !IsWhitespaceOrNewline(s[|s| - 1]))
    ensures Trim(s) == s
  {
  }

  /** Trimming twice is trimming once. */
  lemma TrimIdempotent(s: string)
    ensures Trim(Trim(s)) == Trim(s)
  {
    TrimKeepsTrimmed(Trim(s));
  }

  lemma {:induction false} TrimStartPadded(w: string, x: string)
    requires AllWhitespace(w)
    ensures TrimStart(w + x) == TrimStart(x)
    decreases |w|
  {
    if w != [] {
      assert (w + x)[1..] == w[1..] + x;
      TrimStartPadded(w[1..], x);
    } else {
      assert w + x == x;
    }
  }

  lemma {:induction false} TrimEndPadded(x: string, w: string)
    requires AllWhitespace(w)
    ensures TrimEnd(x + w) == TrimEnd(x)
    decreases |w|
  {
    if w != [] {
      assert (x + w)[..|x + w| - 1] == x + w[..|w| - 1];
      TrimEndPadded(x, w[..|w| - 1]);
    } else {
      assert x + w == x;
    }
  }

  lemma {:induction false} TrimStartAppend(x: string, y: string)
    requires !AllWhitespace(x)
    ensures TrimStart(x + y) == TrimStart(x) + y
    decreases |x|
  {
    if IsWhitespaceOrNewline(x[0]) {
      assert (x + y)[1..] == x[1..] + y;
      TrimStartAppend(x[1..], y);
    }
  }

  /** Surrounding white space does not change what trimming keeps. */
  lemma TrimIgnoresPadding(w1: string, x: string, w2: string)
    requires AllWhitespace(w1) && AllWhitespace(w2)
    ensures Trim(w1 + x + w2) == Trim(x)
  {
    assert w1 + x + w2 == w1 + (x + w2);
    TrimStartPadded(w1, x + w2);
    if AllWhitespace(x) {
      assert AllWhitespace(x + w2);
      assert Trim(x + w2) == [];
    } else {
      TrimStartAppend(x, w2);
      TrimEndPadded(TrimStart(x), w2);
    }
  }

  // ---------------------------------------------------------------------
  // Swift's Int(_:) and Int.description

  predicate IsDigit(c: char) { '0' <= c <= '9' }

  predicate AllDigits(s: string)
  {
    forall k :: 0 <= k < |s| ==> IsDigit(s[k])
  }

  /** The number a string of decimal digits denotes. */
  function DigitsValue(s: string): nat
    requires AllDigits(s)
    decreases |s|
  {
    if s == [] then 0 else 10 * DigitsValue(s[..|s| - 1]) + (s[|s| - 1] as int - '0' as int)
  }

  function DigitChar(d: nat): (c: char)
    requires d < 10
    ensures IsDigit(c) && c as int - '0' as int == d
  {
    ('0' as int + d) as char
  }

  /** `Int(_:)`: an optional sign, then one or more ASCII digits, in range. */
  function ParseInt(s: string): (r: Option<Int64>)
    ensures r.Some? ==> s != [] && IsDigit(s[|s| - 1])
    ensures r.Some? ==> (IsDigit(s[0]) || s[0] == '-' || s[0] == '+')
    ensures r.Some? ==> forall k :: 0 < k < |s| ==> IsDigit(s[k])
    ensures s != [] && AllDigits(s) && DigitsValue(s) <= MaxInt64 ==> r == Some(DigitsValue(s))
    ensures var d := if s != [] && (s[0] == '-' || s[0] == '+') then s[1..] else s;
      (r.Some? <==>
        (d != [] && AllDigits(d)
         && MinInt64 <= (if s[0] == '-' then -(DigitsValue(d) as int) else DigitsValue(d)) <= MaxInt64))
      && (r.Some? ==> r.value == if s[0] == '-' then -(DigitsValue(d) as int) else DigitsValue(d))
  {
    var signed := |s| > 0 && (s[0] == '-' || s[0] == '+');
    var digits := if signed then s[1..] else s;
    if digits == [] || !AllDigits(digits) then None
    else
      var magnitude: int := DigitsValue(digits);
      var v := if signed && s[0] == '-' then -magnitude else magnitude;
      if MinInt64 <= v <= MaxInt64 then
        assert digits[|digits| - 1] == s[|s| - 1];
        Some(v)
      else None
  }

  /** The decimal digits of `n`, most significant first, without leading zeros. */
  function NatToString(n: nat): (s: string)
    ensures s != [] && AllDigits(s)
    ensures DigitsValue(s) == n
    ensures |s| > 1 ==> s[0] != '0'
    decreases n
  {
    if n < 10 then [DigitChar(n)]
    else
      var front := NatToString(n / 10);
      var s := front + [DigitChar(n % 10)];
      assert s[..|s| - 1] == front;
      s
  }

  /** `Int.description`. */
  function IntToString(n: int): (s: string)
    ensures s != [] && (s[0] == '-' <==> n < 0)
    ensures var digits := if n < 0 then s[1..] else s;
      digits != [] && AllDigits(digits) && DigitsValue(digits) == (if n < 0 then -n else n)
      && (|digits| > 1 ==> digits[0] != '0')
  {
    if n < 0 then "-" + NatToString(-n) else NatToString(n)
  }

  /** Reading back what `Int.description` printed gives the same integer. */
  lemma ParseIntRoundTrip(n: Int64)
    ensures ParseInt(IntToString(n)) == Some(n)
  {
    var s := IntToString(n);
    var m: int := n;
    if m < 0 {
      assert s[1..] == NatToString(-m);
    } else {
      assert s == NatToString(n);
      assert s[0] != '-' && s[0] != '+';
    }
  }

  // ---------------------------------------------------------------------
  // init(string:)

  /** `ABCSVCell(string:)`: trim, then Date before Integer before Decimal before Text. */
  function Classify(conv: Conversions, s: string): (c: Cell)
    ensures c.Empty? <==> AllWhitespace(s)
    ensures !c.Header?
    ensures c.Text? ==> c.contents == Trim(s) && c.contents != []
    ensures var t := Trim(s);
      (c.Date? <==> t != [] && conv.dateFromString(t).Some?)
      && (c.Integer? <==> t != [] && conv.dateFromString(t).None? && ParseInt(t).Some?)
      && (c.Decimal? <==> t != [] && conv.dateFromString(t).None? && ParseInt(t).None?
                          && conv.doubleFromString(t).Some?)
      && (c.Text? <==> t != [] && conv.dateFromString(t).None? && ParseInt(t).None?
                       && conv.doubleFromString(t).None?)
    ensures c.Date? ==> Some(c.date) == conv.dateFromString(Trim(s))
    ensures c.Integer? ==> Some(c.integer) == ParseInt(Trim(s))
    ensures c.Decimal? ==> Some(c.decimal) == conv.doubleFromString(Trim(s))
  {
    var clean := Trim(s);
    if clean == [] then Empty
    else match conv.dateFromString(clean)
      case Some(d) => Date(d)
      case None =>
        match ParseInt(clean)
        case Some(n) => Integer(n)
        case None =>
          match conv.doubleFromString(clean)
          case Some(x) => Decimal(x)
          case None => if |clean| > 0 then Text(clean) else Empty
  }

  /** A string both readings accept is a date: the date reading is tried first. */
  lemma DateTakesPrecedence(conv: Conversions, s: string)
    requires conv.dateFromString(Trim(s)).Some? && ParseInt(Trim(s)).Some?
    ensures Classify(conv, s) == Date(conv.dateFromString(Trim(s)).value)
  {
  }

  /** An integer reading wins over a decimal one. */
  lemma IntegerBeforeDecimal(conv: Conversions, s: string)
    requires conv.dateFromString(Trim(s)).None? && ParseInt(Trim(s)).Some?
    ensures Classify(conv, s) == Integer(ParseInt(Trim(s)).value)
  {
  }

  /** Classification sees the trimmed string only. */
  lemma ClassifyIgnoresPadding(conv: Conversions, w1: string, s: string, w2: string)
    requires AllWhitespace(w1) && AllWhitespace(w2)
    ensures Classify(conv, w1 + s + w2) == Classify(conv, s)
  {
    TrimIgnoresPadding(w1, s, w2);
    SameTrimSameCell(conv, w1 + s + w2, s);
  }

  lemma SameTrimSameCell(conv: Conversions, s: string, t: string)
    requires Trim(s) == Trim(t)
    ensures Classify(conv, s) == Classify(conv, t)
  {
  }

  // ---------------------------------------------------------------------
  // description, typeDescription, value, header, isHeader

  /** `description`: the payload's text, and "" for `Empty`. */
  function Description(conv: Conversions, c: Cell): (r: string)
    ensures c.Header? || c.Text? ==> r == c.contents
    ensures c.Empty? ==> r == ""
    ensures c.Integer? ==> ParseInt(r) == Some(c.integer)
  {
    match c
    case Header(h) => h
    case Text(t) => t
    case Integer(n) => ParseIntRoundTrip(n); IntToString(n)
    case Decimal(x) => conv.doubleDescription(x)
    case Date(d) => conv.dateDescription(d)
    case Empty => ""
  }

  /** Re-classifying the description of a classified text cell gives the same cell. */
  lemma ReclassifyText(conv: Conversions, s: string)
    requires Classify(conv, s).Text?
    ensures Classify(conv, Description(conv, Classify(conv, s))) == Classify(conv, s)
  {
    TrimIdempotent(s);
  }

  /** The description of an integer cell classifies back to that cell unless it reads as a date. */
  lemma ReclassifyInteger(conv: Conversions, n: Int64)
    requires conv.dateFromString(IntToString(n)).None?
    ensures Classify(conv, Description(conv, Integer(n))) == Integer(n)
  {
    var s := IntToString(n);
    assert Description(conv, Integer(n)) == s;
    ParseIntRoundTrip(n);
    TrimKeepsTrimmed(s);
    assert Trim(s) == s;
  }

  /** `typeDescription`. */
  function TypeDescription(c: Cell): (r: string)
    ensures c.Header? <==> r == "Header"
    ensures c.Text? <==> r == "Text"
    ensures c.Integer? <==> r == "Integer"
    ensures c.Decimal? <==> r == "Decimal"
    ensures c.Date? <==> r == "Date"
    ensures c.Empty? <==> r == "Empty"
  {
    match c
    case Header(_) => "Header"
    case Text(_) => "Text"
    case Integer(_) => "Integer"
    case Decimal(_) => "Decimal"
    case Date(_) => "Date"
    case Empty => "Empty"
  }

  predicate SameVariant(a: Cell, b: Cell)
  {
    (a.Header? && b.Header?) || (a.Text? && b.Text?) || (a.Integer? && b.Integer?)
    || (a.Decimal? && b.Decimal?) || (a.Date? && b.Date?) || (a.Empty? && b.Empty?)
  }

  /** `typeDescription` names the active variant and nothing else. */
  lemma TypeDescriptionNamesVariant(a: Cell, b: Cell)
    ensures TypeDescription(a) == TypeDescription(b) <==> SameVariant(a, b)
  {
    if TypeDescription(a) == TypeDescription(b) {
      var r := TypeDescription(a);
      assert r[0] == TypeDescription(b)[0] && r[1] == TypeDescription(b)[1];
    }
  }

  /** `value`: the payload, or nil for `Empty`. */
  function Value(c: Cell): (r: Option<Payload>)
    ensures r.None? <==> c.Empty?
    ensures c.Header? || c.Text? ==> r == Some(StringPayload(c.contents))
    ensures c.Integer? ==> r == Some(IntPayload(c.integer))
    ensures c.Decimal? ==> r == Some(DoublePayload(c.decimal))
    ensures c.Date? ==> r == Some(DatePayload(c.date))
  {
    match c
    case Header(h) => Some(StringPayload(h))
    case Text(t) => Some(StringPayload(t))
    case Integer(n) => Some(IntPayload(n))
    case Decimal(x) => Some(DoublePayload(x))
    case Date(d) => Some(DatePayload(d))
    case Empty => None
  }

  /** `header`: a header cell carrying this cell's description. */
  function HeaderOf(conv: Conversions, c: Cell): (r: Cell)
    ensures IsHeader(r)
    ensures Description(conv, r) == Description(conv, c)
    ensures IsHeader(c) ==> r == c
  {
    Header(Description(conv, c))
  }

  /** Taking the header of a header changes nothing. */
  lemma HeaderIdempotent(conv: Conversions, c: Cell)
    ensures HeaderOf(conv, HeaderOf(conv, c)) == HeaderOf(conv, c)
  {
  }

  /** `isHeader`: true for a header cell and no other. */
  function IsHeader(c: Cell): (r: bool)
    ensures r <==> TypeDescription(c) == "Header"
    ensures r ==> Value(c) == Some(StringPayload(c.contents))
  {
    match c
    case Header(_) => true
    case _ => false
  }

  /**
   * `isText`, which the quoting rules consult. It is not defined in the
   * modelled files; the text-bearing variants are taken to be Text and Header.
   */
  predicate IsText(c: Cell)
  {
    c.Text? || c.Header?
  }

  // ---------------------------------------------------------------------
  // Literal conversions

  /** `init(integerLiteral:)`. */
  function FromIntegerLiteral(v: Int64): (r: Cell)
    ensures Value(r) == Some(IntPayload(v)) && TypeDescription(r) == "Integer"
  {
    Integer(v)
  }

  /** `init(floatLiteral:)`. */
  function FromFloatLiteral(v: DecimalValue): (r: Cell)
    ensures Value(r) == Some(DoublePayload(v)) && TypeDescription(r) == "Decimal"
  {
    Decimal(v)
  }

  /** `init(stringLiteral:)` and `init(extendedGraphemeClusterLiteral:)`. */
  function FromStringLiteral(v: string): (r: Cell)
    ensures IsText(r) && !IsHeader(r) && Value(r) == Some(StringPayload(v))
  {
    Text(v)
  }

  /** `init(unicodeScalarLiteral:)`. */
  function FromCharacterLiteral(v: char): (r: Cell)
    ensures IsText(r) && !IsHeader(r) && Value(r) == Some(StringPayload([v]))
  {
    Text([v])
  }

  /** `init(nilLiteral:)`. */
  function FromNilLiteral(): (r: Cell)
    ensures Value(r).None?
  {
    Empty
  }

  // ---------------------------------------------------------------------
  // ==

  /**
   * The `==` operator: same variant and equal payloads, where two decimals
   * are compared by `Double`'s own `==` (IEEE 754: NaN differs from itself,
   * the two zeros are equal).
   */
  function Equals(conv: Conversions, a: Cell, b: Cell): (r: bool)
    ensures !(a.Decimal? && b.Decimal?) ==> (r <==> a == b)
    ensures a.Decimal? && b.Decimal? ==> r == conv.doubleEquals(a.decimal, b.decimal)
    ensures r ==> SameVariant(a, b)
  {
    match (a, b)
    case (Header(x), Header(y)) => x == y
    case (Text(x), Text(y)) => x == y
    case (Integer(x), Integer(y)) => x == y
    case (Decimal(x), Decimal(y)) => conv.doubleEquals(x, y)
    case (Date(x), Date(y)) => x == y
    case (Empty, Empty) => true
    case _ => false
  }
}
