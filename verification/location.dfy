/** Source locations: a line, a column and a running total of code points,
    each a `usize` that starts at 1 and only moves through saturating
    increments or a column reset. The canonical text form is
    `L:{line},C:{column}`; parsing it back recomputes `total`. */
module Locations {
  import opened Wrappers
  import opened Text

  const USIZE_MAX: nat := 0xFFFF_FFFF_FFFF_FFFF

  /** Rust's `usize` on a 64-bit target. */
  type Usize = n: nat | n <= USIZE_MAX

  datatype Location = Location(line: Usize, column: Usize, total: Usize)

  /** The two error strings of `from_str`: the line part or the column part is not a `usize`. */
  datatype LocationParseError = InvalidLine | InvalidColumn

  /** `usize::saturating_add`. */
  function SaturatingAdd(x: Usize, n: Usize): (r: Usize)
    ensures r >= x && r >= n
    ensures r == x + n || r == USIZE_MAX
    ensures x + n <= USIZE_MAX <==> r == x + n
  {
    if x + n > USIZE_MAX then USIZE_MAX else x + n
  }

  /** `usize` addition as a release build performs it: modulo 2^64. */
  function WrappingAdd(x: Usize, n: Usize): (r: Usize)
    ensures x + n <= USIZE_MAX ==> r == x + n
    ensures x + n > USIZE_MAX ==> r == x + n - (USIZE_MAX + 1) && r < x && r < n
  {
    if x + n <= USIZE_MAX then x + n else x + n - (USIZE_MAX + 1)
  }

  /** `Location::new()` and `Location::default()`. */
  function New(): (loc: Location)
    ensures loc.line == 1 && loc.column == 1 && loc.total == 1
  {
    Location(1, 1, 1)
  }

  function IncrementTotalBy(loc: Location, n: Usize): (r: Location)
    ensures r.line == loc.line && r.column == loc.column
    ensures r.total == if loc.total + n <= USIZE_MAX then loc.total + n else USIZE_MAX
    ensures r.total >= loc.total
  {
    loc.(total := SaturatingAdd(loc.total, n))
  }

  function IncrementLineBy(loc: Location, n: Usize): (r: Location)
    ensures r.column == loc.column && r.total == loc.total
    ensures r.line == if loc.line + n <= USIZE_MAX then loc.line + n else USIZE_MAX
    ensures r.line >= loc.line
  {
    loc.(line := SaturatingAdd(loc.line, n))
  }

  function IncrementColumnBy(loc: Location, n: Usize): (r: Location)
    ensures r.line == loc.line && r.total == loc.total
    ensures r.column == if loc.column + n <= USIZE_MAX then loc.column + n else USIZE_MAX
    ensures r.column >= loc.column
  {
    loc.(column := SaturatingAdd(loc.column, n))
  }

  /** The trait's `increment_total`: one more code point, saturating. */
  function IncrementTotal(loc: Location): (r: Location)
    ensures r.line == loc.line && r.column == loc.column
    ensures loc.total < USIZE_MAX ==> r.total == loc.total + 1
    ensures loc.total == USIZE_MAX ==> r.total == USIZE_MAX
  {
    IncrementTotalBy(loc, 1)
  }

  function IncrementLine(loc: Location): (r: Location)
    ensures r.column == loc.column && r.total == loc.total
    ensures loc.line < USIZE_MAX ==> r.line == loc.line + 1
    ensures loc.line == USIZE_MAX ==> r.line == USIZE_MAX
  {
    IncrementLineBy(loc, 1)
  }

  function IncrementColumn(loc: Location): (r: Location)
    ensures r.line == loc.line && r.total == loc.total
    ensures loc.column < USIZE_MAX ==> r.column == loc.column + 1
    ensures loc.column == USIZE_MAX ==> r.column == USIZE_MAX
  {
    IncrementColumnBy(loc, 1)
  }

  function ResetColumn(loc: Location): (r: Location)
    ensures r.column == 1 && r.line == loc.line && r.total == loc.total
  {
    loc.(column := 1)
  }

  /** The order in which no field has decreased. */
  predicate NoFieldDecreased(before: Location, after: Location) {
    before.line <= after.line && before.column <= after.column && before.total <= after.total
  }

  /** No increment ever moves a field backwards, whatever the amount. */
  lemma IncrementsAreMonotone(loc: Location, n: Usize)
    ensures NoFieldDecreased(loc, IncrementTotalBy(loc, n))
    ensures NoFieldDecreased(loc, IncrementLineBy(loc, n))
    ensures NoFieldDecreased(loc, IncrementColumnBy(loc, n))
    ensures n > 0 && loc.total < USIZE_MAX ==> IncrementTotalBy(loc, n).total > loc.total
  {}

  // ---------------------------------------------------------------------
  // Text form
  // ---------------------------------------------------------------------

  /** `Display`: `L:{line},C:{column}`; `total` is not printed. The two
      loops of `from_str` find the line's and the column's numerals in it. */
  function Display(loc: Location): (r: string)
    ensures 2 <= |r| && r[..2] == "L:"
    ensures ParseUsize(LinePart(r)) == Some(loc.line)
    ensures ParseUsize(ColumnPart(AfterFirstComma(r))) == Some(loc.column)
  {
    SplitCanonical(NatToDecimal(loc.line), NatToDecimal(loc.column));
    ParsePrinted(loc.line);
    ParsePrinted(loc.column);
    "L:" + NatToDecimal(loc.line) + ",C:" + NatToDecimal(loc.column)
  }

  /** `usize::from_str`: an optional `+`, then one or more decimal digits
      whose value fits in a `usize`. */
  function ParseUsize(s: string): (r: Option<Usize>)
    ensures r.Some? ==> 0 < |s|
  {
    var digits := if 0 < |s| && s[0] == '+' then s[1..] else s;
    if |digits| == 0 || !AllDigits(digits) then None
    else if DigitsValue(digits) <= USIZE_MAX then Some(DigitsValue(digits))
    else None
  }

  /** What `usize::from_str` accepts: a numeral whose value fits, read as
      that value, with one optional leading '+'. The empty text, a lone '+',
      any other character, and a value past `usize::MAX` are errors. */
  lemma ParseUsizeCases(s: string)
    ensures s == "" || s == "+" ==> ParseUsize(s).None?
    ensures 0 < |s| && !IsAsciiDigit(s[0]) && s[0] != '+' ==> ParseUsize(s).None?
    ensures (exists i :: 0 < i < |s| && !IsAsciiDigit(s[i])) ==> ParseUsize(s).None?
    ensures 0 < |s| && AllDigits(s) ==> ParseUsize(s) == if DigitsValue(s) <= USIZE_MAX then Some(DigitsValue(s)) else None
    ensures 0 < |s| && s[0] == '+' ==> ParseUsize(s) == if AllDigits(s[1..]) then ParseUsize(s[1..]) else None
  {
    if exists i :: 0 < i < |s| && !IsAsciiDigit(s[i]) {
      var i :| 0 < i < |s| && !IsAsciiDigit(s[i]);
      if s[0] == '+' {
        assert s[1..][i - 1] == s[i];
      }
    }
  }

  /** The characters the first loop of `from_str` keeps: everything before the
      first ',' except 'L' and ':'. */
  function LinePart(s: string): string {
    if s == [] then []
    else if s[0] == 'L' || s[0] == ':' then LinePart(s[1..])
    else if s[0] == ',' then []
    else [s[0]] + LinePart(s[1..])
  }

  /** What the first loop leaves in the iterator: everything after the first ','. */
  function AfterFirstComma(s: string): string {
    if s == [] then []
    else if s[0] == ',' then s[1..]
    else AfterFirstComma(s[1..])
  }

  /** The characters the second loop keeps: everything except 'C' and ':'. */
  function ColumnPart(s: string): string {
    if s == [] then []
    else if s[0] == 'C' || s[0] == ':' then ColumnPart(s[1..])
    else [s[0]] + ColumnPart(s[1..])
  }

  /** `Location::from_str` as written: `total` is `line + column` with no
      overflow check, which a release build wraps modulo 2^64. */
  function FromStr(s: string): (r: Result<Location, LocationParseError>)
    ensures r == Err(InvalidLine) <==> ParseUsize(LinePart(s)).None?
    ensures r == Err(InvalidColumn) <==> ParseUsize(LinePart(s)).Some? && ParseUsize(ColumnPart(AfterFirstComma(s))).None?
    ensures r.Ok? ==> Some(r.value.line) == ParseUsize(LinePart(s)) && Some(r.value.column) == ParseUsize(ColumnPart(AfterFirstComma(s)))
    ensures r.Ok? && r.value.line + r.value.column <= USIZE_MAX ==> r.value.total == r.value.line + r.value.column
    ensures r.Ok? && r.value.line + r.value.column > USIZE_MAX ==> r.value.total == r.value.line + r.value.column - (USIZE_MAX + 1)
  {
    match ParseUsize(LinePart(s))
    case None => Err(InvalidLine)
    case Some(line) =>
      match ParseUsize(ColumnPart(AfterFirstComma(s)))
      case None => Err(InvalidColumn)
      case Some(column) => Ok(Location(line, column, WrappingAdd(line, column)))
  }

  /** `from_str` with the addition saturating like every other update of a location. */
  function FromStrCorrected(s: string): (r: Result<Location, LocationParseError>)
    ensures r.Err? <==> FromStr(s).Err?
    ensures r.Err? ==> r == FromStr(s)
    ensures r.Ok? ==> r.value.line == FromStr(s).value.line && r.value.column == FromStr(s).value.column
    ensures r.Ok? ==> r.value.total >= r.value.line && r.value.total >= r.value.column
  {
    match FromStr(s)
    case Err(e) => Err(e)
    case Ok(loc) => Ok(loc.(total := SaturatingAdd(loc.line, loc.column)))
  }

  // ---------------------------------------------------------------------
  // Properties of the text form
  // ---------------------------------------------------------------------

  lemma {:induction false} LinePartOfDigits(d: string, rest: string)
    requires AllDigits(d)
    ensures LinePart(d + "," + rest) == d
    ensures AfterFirstComma(d + "," + rest) == rest
  {
    if d != [] {
      assert (d + "," + rest)[1..] == d[1..] + "," + rest;
      LinePartOfDigits(d[1..], rest);
    } else {
      assert d + "," + rest == [','] + rest;
    }
  }

  lemma {:induction false} ColumnPartOfDigits(d: string)
    requires AllDigits(d)
    ensures ColumnPart(d) == d
  {
    if d != [] {
      ColumnPartOfDigits(d[1..]);
      assert d == [d[0]] + d[1..];
    }
  }

  /** Every `usize` reads back from its decimal form. */
  lemma ParsePrinted(n: Usize)
    ensures ParseUsize(NatToDecimal(n)) == Some(n)
  {
    DecimalRoundTrip(n);
    var d := NatToDecimal(n);
    assert IsAsciiDigit(d[0]);
  }

  /** The two loops of `from_str` recover the two numerals of the canonical form. */
  lemma SplitCanonical(l: string, c: string)
    requires AllDigits(l) && AllDigits(c)
    ensures LinePart("L:" + l + ",C:" + c) == l
    ensures ColumnPart(AfterFirstComma("L:" + l + ",C:" + c)) == c
  {
    var s := "L:" + l + ",C:" + c;
    assert s == "L:" + (l + ("," + ("C:" + c)));
    SplitLine(l, "C:" + c);
    SplitColumn(c);
  }

  lemma SplitLine(l: string, rest: string)
    requires AllDigits(l)
    ensures LinePart("L:" + (l + ("," + rest))) == l
    ensures AfterFirstComma("L:" + (l + ("," + rest))) == rest
  {
    var tail := l + ("," + rest);
    var s := "L:" + tail;
    assert s[1..] == [':'] + tail;
    assert s[2..] == tail;
    assert l + ("," + rest) == l + "," + rest;
    LinePartOfDigits(l, rest);
  }

  lemma SplitColumn(c: string)
    requires AllDigits(c)
    ensures ColumnPart("C:" + c) == c
  {
    var col := "C:" + c;
    assert col[1..] == [':'] + c;
    assert col[1..][1..] == c;
    ColumnPartOfDigits(c);
  }

  /** Printing then parsing keeps line and column, and recomputes the total as
      their (wrapping) sum rather than keeping the printed location's total. */
  lemma DisplayThenParse(loc: Location)
    ensures FromStr(Display(loc)) == Ok(Location(loc.line, loc.column, WrappingAdd(loc.line, loc.column)))
    ensures loc.line + loc.column <= USIZE_MAX ==> FromStr(Display(loc)) == Ok(Location(loc.line, loc.column, loc.line + loc.column))
  {}

  /** The corrected parse is a round trip up to a saturated total. */
  lemma DisplayThenParseCorrected(loc: Location)
    ensures FromStrCorrected(Display(loc)) == Ok(Location(loc.line, loc.column, SaturatingAdd(loc.line, loc.column)))
  {
    DisplayThenParse(loc);
  }

  /** The unchecked addition: when line and column add up past `usize::MAX`,
      the parsed total wraps to less than the line (with column 1 and the
      largest line, to 0). */
  lemma FromStrTotalWraps(loc: Location)
    requires loc.line + loc.column > USIZE_MAX
    ensures FromStr(Display(loc)).Ok?
    ensures FromStr(Display(loc)).value.total == loc.line + loc.column - (USIZE_MAX + 1)
    ensures FromStr(Display(loc)).value.total < loc.line
    ensures loc.line == USIZE_MAX && loc.column == 1 ==> FromStr(Display(loc)).value.total == 0
    ensures FromStrCorrected(Display(loc)).value.total == USIZE_MAX
  {
    DisplayThenParse(loc);
  }

  /** A line part that is empty or not decimal is blamed on the line. */
  lemma FromStrLineErrors()
    ensures FromStr("L:,C:3") == Err(InvalidLine)
    ensures FromStr("L:x,C:3") == Err(InvalidLine)
  {
    var a := "L:,C:3";
    assert a[2..] == [','] + "C:3";
    assert LinePart(a) == [];
    var b := "L:x,C:3";
    assert b[2..] == ['x'] + ",C:3";
    assert b[2..][1..] == ",C:3";
    assert LinePart(b) == "x";
    assert !IsAsciiDigit("x"[0]);
  }

  /** With a valid line, a missing, empty or signed column is blamed on the column. */
  lemma FromStrColumnErrors()
    ensures FromStr("L:4") == Err(InvalidColumn)
    ensures FromStr("L:4,C:") == Err(InvalidColumn)
  {
    var a := "L:4";
    assert a[2..] == "4";
    assert LinePart(a) == "4";
    assert AfterFirstComma(a) == [];
    assert ColumnPart([]) == [];
    var b := "L:4,C:";
    assert b[2..] == "4,C:";
    assert b[2..][1..] == ",C:";
    assert LinePart(b) == "4";
    assert AfterFirstComma(b) == "C:";
    assert "C:"[1..] == ":";
    assert ColumnPart("C:") == [];
  }

  /** A leading '+' is accepted, as `usize::from_str` accepts it. */
  lemma FromStrAcceptsPlus()
    ensures FromStr("L:+4,C:3") == Ok(Location(4, 3, 7))
  {
    var a := "L:+4,C:3";
    assert a[2..] == "+4,C:3";
    assert a[2..][1..] == "4,C:3";
    assert a[2..][1..][1..] == ",C:3";
    assert LinePart(a) == "+4";
    assert AfterFirstComma(a) == "C:3";
    assert "C:3"[1..] == ":3";
    assert "C:3"[1..][1..] == "3";
    assert ColumnPart("C:3") == "3";
    assert "+4"[1..] == "4";
    assert DigitsValue("4") == 4;
    assert DigitsValue("3") == 3;
  }

}
