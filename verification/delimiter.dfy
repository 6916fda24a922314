/** Delimiter recognition: the `Delimiter` sum over symbols, boundary pairs
    and operators, and the three conversions from a window of one, two or
    three classified code points. A window that matches no row of its table
    is an `Invalid` error carrying the window's characters. */
module Delimiters {
  import opened Wrappers
  import opened CodePoints
  import Symbols
  import Operators
  import DelimMacro
  import Text

  /** The six bracket delimiters, as bare variants. */
  datatype BoundaryPairs =
    | LeftSquareBracket | RightSquareBracket
    | LeftParenthesis | RightParenthesis
    | LeftCurlyBracket | RightCurlyBracket

  datatype Delimiter =
    | Symbol(symbol: Symbols.Symbol)
    | BoundaryPairs(pair: BoundaryPairs)
    | Operator(operator: Operators.Operator)

  /** `DelimiterParseError::Invalid`. The declaration says `found: char`, but
      every construction site passes a string (possibly empty, possibly two
      or three characters), so `found` is a string here. */
  datatype DelimiterParseError = Invalid(found: string)

  /** The sign of a symbol or operator delimiter; boundary pairs have none. */
  function Sign(d: Delimiter): Option<string> {
    match d
    case Symbol(s) => Some(Symbols.Sign(s))
    case BoundaryPairs(_) => None
    case Operator(op) => Some(Operators.Sign(op))
  }

  /** The code point each bracket delimiter is recognised from. */
  function PairCodePoint(p: BoundaryPairs): CodePoint {
    match p
    case LeftSquareBracket => CodePoint.LeftSquareBracket
    case RightSquareBracket => CodePoint.RightSquareBracket
    case LeftParenthesis => CodePoint.LeftParenthesis
    case RightParenthesis => CodePoint.RightParenthesis
    case LeftCurlyBracket => CodePoint.LeftCurlyBracket
    case RightCurlyBracket => CodePoint.RightCurlyBracket
  }

  // The identifiers of `PairName` are spelt in the macro's alphabet.
  lemma PairNameAlphabet()
    ensures DelimMacro.IsMacroName("LEFT_SQUARE_BRACKET")
    ensures DelimMacro.IsMacroName("RIGHT_SQUARE_BRACKET")
    ensures DelimMacro.IsMacroName("LEFT_PARENTHESIS")
    ensures DelimMacro.IsMacroName("RIGHT_PARENTHESIS")
    ensures DelimMacro.IsMacroName("LEFT_CURLY_BRACKET")
    ensures DelimMacro.IsMacroName("RIGHT_CURLY_BRACKET")
  {}

  /** The variant identifier of a bracket delimiter. */
  function PairName(p: BoundaryPairs): (r: string)
    ensures DelimMacro.IsMacroName(r)
  {
    PairNameAlphabet();
    match p
    case LeftSquareBracket => "LEFT_SQUARE_BRACKET"
    case RightSquareBracket => "RIGHT_SQUARE_BRACKET"
    case LeftParenthesis => "LEFT_PARENTHESIS"
    case RightParenthesis => "RIGHT_PARENTHESIS"
    case LeftCurlyBracket => "LEFT_CURLY_BRACKET"
    case RightCurlyBracket => "RIGHT_CURLY_BRACKET"
  }

  /** `Display for Delimiter`: the display of the inner enumeration. The
      bracket enumeration's display is taken to be the one `delim!` generates
      from its identifiers. */
  function Display(d: Delimiter): (r: string)
    ensures forall i :: 0 <= i < |r| ==> r[i] != '_' && !Text.IsAsciiUpper(r[i])
  {
    match d
    case Symbol(s) => Symbols.Display(s)
    case BoundaryPairs(p) => DelimMacro.Display(PairName(p))
    case Operator(op) => Operators.Display(op)
  }

  /** The characters of a window whose code points all carry one. */
  predicate HasUnits(w: seq<CodePoint>) {
    forall i :: 0 <= i < |w| ==> w[i].MaybeUnit().Some?
  }

  function Units(w: seq<CodePoint>): (r: string)
    requires HasUnits(w)
    ensures |r| == |w|
    ensures forall i :: 0 <= i < |w| ==> Some(r[i]) == w[i].MaybeUnit()
  {
    seq(|w|, i requires 0 <= i < |w| => w[i].UnitChar())
  }

  /** What a successful conversion promises about the window `w`: a symbol or
      operator's sign is exactly the window's characters, and a bracket
      delimiter comes from its own code point. */
  predicate Recognises(w: seq<CodePoint>, d: Delimiter) {
    match d
    case BoundaryPairs(p) => w == [PairCodePoint(p)]
    case _ => Sign(d).Some? && Spells(w, Sign(d).value)
  }

  /** The window's code points carry, in order, the characters of `sign`. */
  predicate Spells(w: seq<CodePoint>, sign: string) {
    |w| == |sign| && forall i :: 0 <= i < |w| ==> w[i].MaybeUnit() == Some(sign[i])
  }

  lemma SpellsUnits(w: seq<CodePoint>, sign: string)
    requires Spells(w, sign)
    ensures HasUnits(w) && Units(w) == sign
  {}

  // ---------------------------------------------------------------------
  // One code point
  // ---------------------------------------------------------------------

  /** `TryFrom<CodePoint>`: the symbol rows, the bracket rows, then the
      operator rows, in the source's order. */
  function TryFrom1(cp: CodePoint): (r: Result<Delimiter, DelimiterParseError>)
    ensures r.Ok? <==> Table1(cp).Some?
    ensures r.Ok? ==> r.value == Table1(cp).value && Recognises([cp], r.value)
    ensures r.Err? ==> r.error.found == if cp.IsValid() then [cp.UnitChar()] else ""
  {
    var found := Table1(cp);
    if found.Some? then Ok(found.value)
    else Err(Invalid(if cp.IsValid() then [cp.UnitChar()] else ""))
  }

  /** The table of `TryFrom<CodePoint>`: 30 rows. */
  function Table1(cp: CodePoint): (r: Option<Delimiter>)
    ensures r.Some? ==> Recognises([cp], r.value)
  {
    SymbolFrom1Sound(cp);
    UnitSymbolFrom1Sound(cp);
    PairFrom1Sound(cp);
    AssignmentOrComparisonFrom1Sound(cp);
    ArithmeticFrom1Sound(cp);
    LogicalOrBitwiseFrom1Sound(cp);
    var symbol := SymbolFrom1(cp);
    if symbol.Some? then symbol else
    var unit := UnitSymbolFrom1(cp);
    if unit.Some? then unit else
    var pair := PairFrom1(cp);
    if pair.Some? then pair else
    var comparison := AssignmentOrComparisonFrom1(cp);
    if comparison.Some? then comparison else
    var arithmetic := ArithmeticFrom1(cp);
    if arithmetic.Some? then arithmetic else
    LogicalOrBitwiseFrom1(cp)
  }

  /** The symbols that have a code-point variant of their own. */
  function SymbolFrom1(cp: CodePoint): Option<Delimiter> {
    match cp
    case ReverseSolidus => Some(Symbol(Symbols.Escape))
    case NumberSign => Some(Symbol(Symbols.Hash))
    case FullStop => Some(Symbol(Symbols.Dot))
    case Comma => Some(Symbol(Symbols.Comma))
    case Colon => Some(Symbol(Symbols.Colon))
    case Semicolon => Some(Symbol(Symbols.Semicolon))
    case QuestionMark => Some(Symbol(Symbols.QuestionMark))
    case _ => None
  }

  lemma SymbolFrom1Sound(cp: CodePoint)
    ensures SymbolFrom1(cp).Some? ==> Recognises([cp], SymbolFrom1(cp).value)
  {}

  /** `@`, `$`, `_` and the backquote are not in the code-point symbol table,
      so they arrive as plain units and are matched through `is`. */
  function UnitSymbolFrom1(cp: CodePoint): Option<Delimiter> {
    match cp
    case Unit(u) =>
      if u.Is('@') then Some(Symbol(Symbols.At))
      else if u.Is('$') then Some(Symbol(Symbols.Dollar))
      else if u.Is('_') then Some(Symbol(Symbols.Underscore))
      else if u.Is('`') then Some(Symbol(Symbols.Tilde))
      else None
    case _ => None
  }

  lemma UnitSymbolFrom1Sound(cp: CodePoint)
    ensures UnitSymbolFrom1(cp).Some? ==> Recognises([cp], UnitSymbolFrom1(cp).value)
  {}

  function PairFrom1(cp: CodePoint): Option<Delimiter> {
    match cp
    case LeftSquareBracket => Some(BoundaryPairs(BoundaryPairs.LeftSquareBracket))
    case RightSquareBracket => Some(BoundaryPairs(BoundaryPairs.RightSquareBracket))
    case LeftParenthesis => Some(BoundaryPairs(BoundaryPairs.LeftParenthesis))
    case RightParenthesis => Some(BoundaryPairs(BoundaryPairs.RightParenthesis))
    case LeftCurlyBracket => Some(BoundaryPairs(BoundaryPairs.LeftCurlyBracket))
    case RightCurlyBracket => Some(BoundaryPairs(BoundaryPairs.RightCurlyBracket))
    case _ => None
  }

  lemma PairFrom1Sound(cp: CodePoint)
    ensures PairFrom1(cp).Some? ==> Recognises([cp], PairFrom1(cp).value)
  {}

  /** `=`, `>` and `<`. */
  function AssignmentOrComparisonFrom1(cp: CodePoint): Option<Delimiter> {
    match cp
    case EqualsSign => Some(Operator(Operators.Assignment(Operators.Assignment.Equal)))
    case GreaterThanSign => Some(Operator(Operators.Comparison(Operators.Comparison.GreaterThan)))
    case LessThanSign => Some(Operator(Operators.Comparison(Operators.Comparison.LessThan)))
    case _ => None
  }

  lemma AssignmentOrComparisonFrom1Sound(cp: CodePoint)
    ensures AssignmentOrComparisonFrom1(cp).Some? ==> Recognises([cp], AssignmentOrComparisonFrom1(cp).value)
  {}

  /** The one-character arithmetic operators. */
  function ArithmeticFrom1(cp: CodePoint): Option<Delimiter> {
    match cp
    case PlusSign => Some(Operator(Operators.Arithmetic(Operators.Arithmetic.Addition)))
    case HyphenMinus => Some(Operator(Operators.Arithmetic(Operators.Arithmetic.Subtraction)))
    case Solidus => Some(Operator(Operators.Arithmetic(Operators.Arithmetic.Division)))
    case Asterisk => Some(Operator(Operators.Arithmetic(Operators.Arithmetic.Multiplication)))
    case PercentageSign => Some(Operator(Operators.Arithmetic(Operators.Arithmetic.Remainder)))
    case _ => None
  }

  lemma ArithmeticFrom1Sound(cp: CodePoint)
    ensures ArithmeticFrom1(cp).Some? ==> Recognises([cp], ArithmeticFrom1(cp).value)
  {}

  /** `!`, then the one-character bitwise operators. */
  function LogicalOrBitwiseFrom1(cp: CodePoint): Option<Delimiter> {
    match cp
    case ExclamationMark => Some(Operator(Operators.Logical(Operators.Logical.Not)))
    case Ampersand => Some(Operator(Operators.Bitwise(Operators.Bitwise.And)))
    case VerticalLine => Some(Operator(Operators.Bitwise(Operators.Bitwise.Or)))
    case CircumflexAccent => Some(Operator(Operators.Bitwise(Operators.Bitwise.Xor)))
    case Tilde => Some(Operator(Operators.Bitwise(Operators.Bitwise.Not)))
    case _ => None
  }

  lemma LogicalOrBitwiseFrom1Sound(cp: CodePoint)
    ensures LogicalOrBitwiseFrom1(cp).Some? ==> Recognises([cp], LogicalOrBitwiseFrom1(cp).value)
  {}

  // ---------------------------------------------------------------------
  // Two code points
  // ---------------------------------------------------------------------

  /** The table of `TryFrom<[CodePoint; 2]>`: the 21 recognised pairs, in
      the source's order. */
  function Table2(a: CodePoint, b: CodePoint): (r: Option<Delimiter>)
    ensures r.Some? ==> Recognises([a, b], r.value)
  {
    RangePairsSound(a, b);
    ArrowPairsSound(a, b);
    ArithmeticAssignmentPairsSound(a, b);
    BitwiseAssignmentPairsSound(a, b);
    ComparisonPairsSound(a, b);
    DoubledPairsSound(a, b);
    var symbol := RangePairs(a, b);
    if symbol.Some? then symbol else
    var arrow := ArrowPairs(a, b);
    if arrow.Some? then arrow else
    var arithmetic := ArithmeticAssignmentPairs(a, b);
    if arithmetic.Some? then arithmetic else
    var bitwise := BitwiseAssignmentPairs(a, b);
    if bitwise.Some? then bitwise else
    var comparison := ComparisonPairs(a, b);
    if comparison.Some? then comparison else
    DoubledPairs(a, b)
  }

  /** `..` and `::`. */
  function RangePairs(a: CodePoint, b: CodePoint): Option<Delimiter> {
    if a == FullStop && b == FullStop then Some(Symbol(Symbols.Range))
    else if a == Colon && b == Colon then Some(Symbol(Symbols.DoubleColon))
    else None
  }

  lemma RangePairsSound(a: CodePoint, b: CodePoint)
    ensures RangePairs(a, b).Some? ==> Recognises([a, b], RangePairs(a, b).value)
  {}

  /** `->` and `=>`. */
  function ArrowPairs(a: CodePoint, b: CodePoint): Option<Delimiter> {
    if a == HyphenMinus && b == GreaterThanSign then Some(Symbol(Symbols.SkinnyArrow))
    else if a == EqualsSign && b == GreaterThanSign then Some(Symbol(Symbols.FatArrow))
    else None
  }

  lemma ArrowPairsSound(a: CodePoint, b: CodePoint)
    ensures ArrowPairs(a, b).Some? ==> Recognises([a, b], ArrowPairs(a, b).value)
  {}

  /** `+=`, `-=`, `*=`, `/=` and `%=`. */
  function ArithmeticAssignmentPairs(a: CodePoint, b: CodePoint): Option<Delimiter> {
    if a == PlusSign && b == EqualsSign then Some(Operator(Operators.Assignment(Operators.Assignment.Addition)))
    else if a == HyphenMinus && b == EqualsSign then Some(Operator(Operators.Assignment(Operators.Assignment.Subtraction)))
    else if a == Asterisk && b == EqualsSign then Some(Operator(Operators.Assignment(Operators.Assignment.Multiplication)))
    else if a == Solidus && b == EqualsSign then Some(Operator(Operators.Assignment(Operators.Assignment.Division)))
    else if a == PercentageSign && b == EqualsSign then Some(Operator(Operators.Assignment(Operators.Assignment.Remainder)))
    else None
  }

  lemma ArithmeticAssignmentPairsSound(a: CodePoint, b: CodePoint)
    ensures ArithmeticAssignmentPairs(a, b).Some? ==> Recognises([a, b], ArithmeticAssignmentPairs(a, b).value)
  {}

  /** `&=`, `^=` and `|=`. */
  function BitwiseAssignmentPairs(a: CodePoint, b: CodePoint): Option<Delimiter> {
    if a == Ampersand && b == EqualsSign then Some(Operator(Operators.Assignment(Operators.Assignment.BitwiseAnd)))
    else if a == CircumflexAccent && b == EqualsSign then Some(Operator(Operators.Assignment(Operators.Assignment.BitwiseXor)))
    else if a == VerticalLine && b == EqualsSign then Some(Operator(Operators.Assignment(Operators.Assignment.BitwiseOr)))
    else None
  }

  lemma BitwiseAssignmentPairsSound(a: CodePoint, b: CodePoint)
    ensures BitwiseAssignmentPairs(a, b).Some? ==> Recognises([a, b], BitwiseAssignmentPairs(a, b).value)
  {}

  /** `==`, `!=`, `<=` and `>=`. */
  function ComparisonPairs(a: CodePoint, b: CodePoint): Option<Delimiter> {
    if a == EqualsSign && b == EqualsSign then Some(Operator(Operators.Comparison(Operators.Comparison.Equal)))
    else if a == ExclamationMark && b == EqualsSign then Some(Operator(Operators.Comparison(Operators.Comparison.NotEqual)))
    else if a == LessThanSign && b == EqualsSign then Some(Operator(Operators.Comparison(Operators.Comparison.LessThanOrEqual)))
    else if a == GreaterThanSign && b == EqualsSign then Some(Operator(Operators.Comparison(Operators.Comparison.GreaterThanOrEqual)))
    else None
  }

  lemma ComparisonPairsSound(a: CodePoint, b: CodePoint)
    ensures ComparisonPairs(a, b).Some? ==> Recognises([a, b], ComparisonPairs(a, b).value)
  {}

  /** The doubled characters: `^^`, `&&`, `||`, `<<` and `>>`. */
  function DoubledPairs(a: CodePoint, b: CodePoint): Option<Delimiter> {
    if a == CircumflexAccent && b == CircumflexAccent then Some(Operator(Operators.Arithmetic(Operators.Arithmetic.Exponentiation)))
    else if a == Ampersand && b == Ampersand then Some(Operator(Operators.Logical(Operators.Logical.And)))
    else if a == VerticalLine && b == VerticalLine then Some(Operator(Operators.Logical(Operators.Logical.Or)))
    else if a == LessThanSign && b == LessThanSign then Some(Operator(Operators.Bitwise(Operators.Bitwise.LeftShift)))
    else if a == GreaterThanSign && b == GreaterThanSign then Some(Operator(Operators.Bitwise(Operators.Bitwise.RightShift)))
    else None
  }

  lemma DoubledPairsSound(a: CodePoint, b: CodePoint)
    ensures DoubledPairs(a, b).Some? ==> Recognises([a, b], DoubledPairs(a, b).value)
  {}

  /** `TryFrom<[CodePoint; 2]>`. Collecting the error string calls `unit()` on
      both code points, which panics on NULL, EOF and Ignore; an unmatched
      window must therefore carry characters. */
  function TryFrom2(a: CodePoint, b: CodePoint): (r: Result<Delimiter, DelimiterParseError>)
    requires Table2(a, b).Some? || HasUnits([a, b])
    ensures r.Ok? <==> Table2(a, b).Some?
    ensures r.Ok? ==> Recognises([a, b], r.value)
    ensures r.Err? ==> HasUnits([a, b]) && r.error.found == Units([a, b])
  {
    match Table2(a, b)
    case Some(d) => Ok(d)
    case None => Err(Invalid(Units([a, b])))
  }

  // ---------------------------------------------------------------------
  // Three code points
  // ---------------------------------------------------------------------

  /** The table of `TryFrom<[CodePoint; 3]>`: the five recognised triples. */
  function Table3(a: CodePoint, b: CodePoint, c: CodePoint): (r: Option<Delimiter>)
    ensures r.Some? ==> Recognises([a, b, c], r.value)
  {
    RangeTriplesSound(a, b, c);
    ShiftAssignmentTriplesSound(a, b, c);
    LogicalAssignmentTriplesSound(a, b, c);
    var range := RangeTriples(a, b, c);
    if range.Some? then range else
    var shift := ShiftAssignmentTriples(a, b, c);
    if shift.Some? then shift else
    LogicalAssignmentTriples(a, b, c)
  }

  /** `..=`. */
  function RangeTriples(a: CodePoint, b: CodePoint, c: CodePoint): Option<Delimiter> {
    if a == FullStop && b == FullStop && c == EqualsSign then Some(Symbol(Symbols.RangeInclusive))
    else None
  }

  lemma RangeTriplesSound(a: CodePoint, b: CodePoint, c: CodePoint)
    ensures RangeTriples(a, b, c).Some? ==> Recognises([a, b, c], RangeTriples(a, b, c).value)
  {}

  /** `<<=` and `>>=`. */
  function ShiftAssignmentTriples(a: CodePoint, b: CodePoint, c: CodePoint): Option<Delimiter> {
    if a == LessThanSign && b == LessThanSign && c == EqualsSign then Some(Operator(Operators.Assignment(Operators.Assignment.LeftShift)))
    else if a == GreaterThanSign && b == GreaterThanSign && c == EqualsSign then Some(Operator(Operators.Assignment(Operators.Assignment.RightShift)))
    else None
  }

  lemma ShiftAssignmentTriplesSound(a: CodePoint, b: CodePoint, c: CodePoint)
    ensures ShiftAssignmentTriples(a, b, c).Some? ==> Recognises([a, b, c], ShiftAssignmentTriples(a, b, c).value)
  {}

  /** `&&=` and `||=`. */
  function LogicalAssignmentTriples(a: CodePoint, b: CodePoint, c: CodePoint): Option<Delimiter> {
    if a == Ampersand && b == Ampersand && c == EqualsSign then Some(Operator(Operators.Assignment(Operators.Assignment.LogicalAnd)))
    else if a == VerticalLine && b == VerticalLine && c == EqualsSign then Some(Operator(Operators.Assignment(Operators.Assignment.LogicalOr)))
    else None
  }

  lemma LogicalAssignmentTriplesSound(a: CodePoint, b: CodePoint, c: CodePoint)
    ensures LogicalAssignmentTriples(a, b, c).Some? ==> Recognises([a, b, c], LogicalAssignmentTriples(a, b, c).value)
  {}

  /** `TryFrom<[CodePoint; 3]>`, with the same `unit()` panic as the pair case. */
  function TryFrom3(a: CodePoint, b: CodePoint, c: CodePoint): (r: Result<Delimiter, DelimiterParseError>)
    requires Table3(a, b, c).Some? || HasUnits([a, b, c])
    ensures r.Ok? <==> Table3(a, b, c).Some?
    ensures r.Ok? ==> Recognises([a, b, c], r.value)
    ensures r.Err? ==> HasUnits([a, b, c]) && r.error.found == Units([a, b, c])
  {
    match Table3(a, b, c)
    case Some(d) => Ok(d)
    case None => Err(Invalid(Units([a, b, c])))
  }

  // ---------------------------------------------------------------------
  // Completeness of the tables
  // ---------------------------------------------------------------------

  /** The code points a lexer reads for the characters of `text`. */
  function Window(text: string): (w: seq<CodePoint>)
    ensures |w| == |text|
    ensures forall i :: 0 <= i < |text| ==> w[i] == From(CharUnit(text[i]))
  {
    Text.Map(text, (c: char) => From(CharUnit(c)))
  }

  /** The table for the window's length. */
  function Lookup(w: seq<CodePoint>): Option<Delimiter>
    requires 1 <= |w| <= 3
  {
    if |w| == 1 then Table1(w[0])
    else if |w| == 2 then Table2(w[0], w[1])
    else Table3(w[0], w[1], w[2])
  }

  // The tables are complete: the window of every sign finds its delimiter,
  // one row at a time.

  lemma EscapeRecognised()
    ensures Lookup(Window("\\")) == Some(Symbol(Symbols.Escape))
  {
    var w := Window("\\");
    assert w == [ReverseSolidus];
    assert Table1(w[0]) == Some(Symbol(Symbols.Escape));
  }

  lemma AtRecognised()
    ensures Lookup(Window("@")) == Some(Symbol(Symbols.At))
  {
    var w := Window("@");
    assert w == [Unit(CharUnit('@'))];
    assert Table1(w[0]) == Some(Symbol(Symbols.At));
  }

  lemma DollarRecognised()
    ensures Lookup(Window("$")) == Some(Symbol(Symbols.Dollar))
  {
    var w := Window("$");
    assert w == [Unit(CharUnit('$'))];
    assert Table1(w[0]) == Some(Symbol(Symbols.Dollar));
  }

  lemma HashRecognised()
    ensures Lookup(Window("#")) == Some(Symbol(Symbols.Hash))
  {
    var w := Window("#");
    assert w == [NumberSign];
    assert Table1(w[0]) == Some(Symbol(Symbols.Hash));
  }

  lemma DotRecognised()
    ensures Lookup(Window(".")) == Some(Symbol(Symbols.Dot))
  {
    var w := Window(".");
    assert w == [FullStop];
    assert Table1(w[0]) == Some(Symbol(Symbols.Dot));
  }

  lemma RangeRecognised()
    ensures Lookup(Window("..")) == Some(Symbol(Symbols.Range))
  {
    var w := Window("..");
    assert w == [FullStop, FullStop];
    assert Table2(w[0], w[1]) == Some(Symbol(Symbols.Range));
  }

  lemma RangeInclusiveRecognised()
    ensures Lookup(Window("..=")) == Some(Symbol(Symbols.RangeInclusive))
  {
    var w := Window("..=");
    assert w == [FullStop, FullStop, EqualsSign];
    assert Table3(w[0], w[1], w[2]) == Some(Symbol(Symbols.RangeInclusive));
  }

  lemma CommaRecognised()
    ensures Lookup(Window(",")) == Some(Symbol(Symbols.Comma))
  {
    var w := Window(",");
    assert w == [Comma];
    assert Table1(w[0]) == Some(Symbol(Symbols.Comma));
  }

  lemma DoubleColonRecognised()
    ensures Lookup(Window("::")) == Some(Symbol(Symbols.DoubleColon))
  {
    var w := Window("::");
    assert w == [Colon, Colon];
    assert Table2(w[0], w[1]) == Some(Symbol(Symbols.DoubleColon));
  }

  lemma ColonRecognised()
    ensures Lookup(Window(":")) == Some(Symbol(Symbols.Colon))
  {
    var w := Window(":");
    assert w == [Colon];
    assert Table1(w[0]) == Some(Symbol(Symbols.Colon));
  }

  lemma SemicolonRecognised()
    ensures Lookup(Window(";")) == Some(Symbol(Symbols.Semicolon))
  {
    var w := Window(";");
    assert w == [Semicolon];
    assert Table1(w[0]) == Some(Symbol(Symbols.Semicolon));
  }

  lemma UnderscoreRecognised()
    ensures Lookup(Window("_")) == Some(Symbol(Symbols.Underscore))
  {
    var w := Window("_");
    assert w == [Unit(CharUnit('_'))];
    assert Table1(w[0]) == Some(Symbol(Symbols.Underscore));
  }

  lemma TildeRecognised()
    ensures Lookup(Window("`")) == Some(Symbol(Symbols.Tilde))
  {
    var w := Window("`");
    assert w == [Unit(CharUnit('`'))];
    assert Table1(w[0]) == Some(Symbol(Symbols.Tilde));
  }

  lemma QuestionMarkRecognised()
    ensures Lookup(Window("?")) == Some(Symbol(Symbols.QuestionMark))
  {
    var w := Window("?");
    assert w == [QuestionMark];
    assert Table1(w[0]) == Some(Symbol(Symbols.QuestionMark));
  }

  lemma SkinnyArrowRecognised()
    ensures Lookup(Window("->")) == Some(Symbol(Symbols.SkinnyArrow))
  {
    var w := Window("->");
    assert w == [HyphenMinus, GreaterThanSign];
    assert Table2(w[0], w[1]) == Some(Symbol(Symbols.SkinnyArrow));
  }

  lemma FatArrowRecognised()
    ensures Lookup(Window("=>")) == Some(Symbol(Symbols.FatArrow))
  {
    var w := Window("=>");
    assert w == [EqualsSign, GreaterThanSign];
    assert Table2(w[0], w[1]) == Some(Symbol(Symbols.FatArrow));
  }

  lemma AssignmentEqualRecognised()
    ensures Lookup(Window("=")) == Some(Operator(Operators.Assignment(Operators.Assignment.Equal)))
  {
    var w := Window("=");
    assert w == [EqualsSign];
    assert Table1(w[0]) == Some(Operator(Operators.Assignment(Operators.Assignment.Equal)));
  }

  lemma AssignmentAdditionRecognised()
    ensures Lookup(Window("+=")) == Some(Operator(Operators.Assignment(Operators.Assignment.Addition)))
  {
    var w := Window("+=");
    assert w == [PlusSign, EqualsSign];
    assert Table2(w[0], w[1]) == Some(Operator(Operators.Assignment(Operators.Assignment.Addition)));
  }

  lemma AssignmentSubtractionRecognised()
    ensures Lookup(Window("-=")) == Some(Operator(Operators.Assignment(Operators.Assignment.Subtraction)))
  {
    var w := Window("-=");
    assert w == [HyphenMinus, EqualsSign];
    assert Table2(w[0], w[1]) == Some(Operator(Operators.Assignment(Operators.Assignment.Subtraction)));
  }

  lemma AssignmentMultiplicationRecognised()
    ensures Lookup(Window("*=")) == Some(Operator(Operators.Assignment(Operators.Assignment.Multiplication)))
  {
    var w := Window("*=");
    assert w == [Asterisk, EqualsSign];
    assert Table2(w[0], w[1]) == Some(Operator(Operators.Assignment(Operators.Assignment.Multiplication)));
  }

  lemma AssignmentDivisionRecognised()
    ensures Lookup(Window("/=")) == Some(Operator(Operators.Assignment(Operators.Assignment.Division)))
  {
    var w := Window("/=");
    assert w == [Solidus, EqualsSign];
    assert Table2(w[0], w[1]) == Some(Operator(Operators.Assignment(Operators.Assignment.Division)));
  }

  lemma AssignmentRemainderRecognised()
    ensures Lookup(Window("%=")) == Some(Operator(Operators.Assignment(Operators.Assignment.Remainder)))
  {
    var w := Window("%=");
    assert w == [PercentageSign, EqualsSign];
    assert Table2(w[0], w[1]) == Some(Operator(Operators.Assignment(Operators.Assignment.Remainder)));
  }

  lemma AssignmentLeftShiftRecognised()
    ensures Lookup(Window("<<=")) == Some(Operator(Operators.Assignment(Operators.Assignment.LeftShift)))
  {
    var w := Window("<<=");
    assert w == [LessThanSign, LessThanSign, EqualsSign];
    assert Table3(w[0], w[1], w[2]) == Some(Operator(Operators.Assignment(Operators.Assignment.LeftShift)));
  }

  lemma AssignmentRightShiftRecognised()
    ensures Lookup(Window(">>=")) == Some(Operator(Operators.Assignment(Operators.Assignment.RightShift)))
  {
    var w := Window(">>=");
    assert w == [GreaterThanSign, GreaterThanSign, EqualsSign];
    assert Table3(w[0], w[1], w[2]) == Some(Operator(Operators.Assignment(Operators.Assignment.RightShift)));
  }

  lemma AssignmentBitwiseAndRecognised()
    ensures Lookup(Window("&=")) == Some(Operator(Operators.Assignment(Operators.Assignment.BitwiseAnd)))
  {
    var w := Window("&=");
    assert w == [Ampersand, EqualsSign];
    assert Table2(w[0], w[1]) == Some(Operator(Operators.Assignment(Operators.Assignment.BitwiseAnd)));
  }

  lemma AssignmentBitwiseXorRecognised()
    ensures Lookup(Window("^=")) == Some(Operator(Operators.Assignment(Operators.Assignment.BitwiseXor)))
  {
    var w := Window("^=");
    assert w == [CircumflexAccent, EqualsSign];
    assert Table2(w[0], w[1]) == Some(Operator(Operators.Assignment(Operators.Assignment.BitwiseXor)));
  }

  lemma AssignmentBitwiseOrRecognised()
    ensures Lookup(Window("|=")) == Some(Operator(Operators.Assignment(Operators.Assignment.BitwiseOr)))
  {
    var w := Window("|=");
    assert w == [VerticalLine, EqualsSign];
    assert Table2(w[0], w[1]) == Some(Operator(Operators.Assignment(Operators.Assignment.BitwiseOr)));
  }

  lemma AssignmentLogicalAndRecognised()
    ensures Lookup(Window("&&=")) == Some(Operator(Operators.Assignment(Operators.Assignment.LogicalAnd)))
  {
    var w := Window("&&=");
    assert w == [Ampersand, Ampersand, EqualsSign];
    assert Table3(w[0], w[1], w[2]) == Some(Operator(Operators.Assignment(Operators.Assignment.LogicalAnd)));
  }

  lemma AssignmentLogicalOrRecognised()
    ensures Lookup(Window("||=")) == Some(Operator(Operators.Assignment(Operators.Assignment.LogicalOr)))
  {
    var w := Window("||=");
    assert w == [VerticalLine, VerticalLine, EqualsSign];
    assert Table3(w[0], w[1], w[2]) == Some(Operator(Operators.Assignment(Operators.Assignment.LogicalOr)));
  }

  lemma ComparisonEqualRecognised()
    ensures Lookup(Window("==")) == Some(Operator(Operators.Comparison(Operators.Comparison.Equal)))
  {
    var w := Window("==");
    assert w == [EqualsSign, EqualsSign];
    assert Table2(w[0], w[1]) == Some(Operator(Operators.Comparison(Operators.Comparison.Equal)));
  }

  lemma ComparisonNotEqualRecognised()
    ensures Lookup(Window("!=")) == Some(Operator(Operators.Comparison(Operators.Comparison.NotEqual)))
  {
    var w := Window("!=");
    assert w == [ExclamationMark, EqualsSign];
    assert Table2(w[0], w[1]) == Some(Operator(Operators.Comparison(Operators.Comparison.NotEqual)));
  }

  lemma ComparisonGreaterThanRecognised()
    ensures Lookup(Window(">")) == Some(Operator(Operators.Comparison(Operators.Comparison.GreaterThan)))
  {
    var w := Window(">");
    assert w == [GreaterThanSign];
    assert Table1(w[0]) == Some(Operator(Operators.Comparison(Operators.Comparison.GreaterThan)));
  }

  lemma ComparisonGreaterThanOrEqualRecognised()
    ensures Lookup(Window(">=")) == Some(Operator(Operators.Comparison(Operators.Comparison.GreaterThanOrEqual)))
  {
    var w := Window(">=");
    assert w == [GreaterThanSign, EqualsSign];
    assert Table2(w[0], w[1]) == Some(Operator(Operators.Comparison(Operators.Comparison.GreaterThanOrEqual)));
  }

  lemma ComparisonLessThanRecognised()
    ensures Lookup(Window("<")) == Some(Operator(Operators.Comparison(Operators.Comparison.LessThan)))
  {
    var w := Window("<");
    assert w == [LessThanSign];
    assert Table1(w[0]) == Some(Operator(Operators.Comparison(Operators.Comparison.LessThan)));
  }

  lemma ComparisonLessThanOrEqualRecognised()
    ensures Lookup(Window("<=")) == Some(Operator(Operators.Comparison(Operators.Comparison.LessThanOrEqual)))
  {
    var w := Window("<=");
    assert w == [LessThanSign, EqualsSign];
    assert Table2(w[0], w[1]) == Some(Operator(Operators.Comparison(Operators.Comparison.LessThanOrEqual)));
  }

  lemma ArithmeticAdditionRecognised()
    ensures Lookup(Window("+")) == Some(Operator(Operators.Arithmetic(Operators.Arithmetic.Addition)))
  {
    var w := Window("+");
    assert w == [PlusSign];
    assert Table1(w[0]) == Some(Operator(Operators.Arithmetic(Operators.Arithmetic.Addition)));
  }

  lemma ArithmeticSubtractionRecognised()
    ensures Lookup(Window("-")) == Some(Operator(Operators.Arithmetic(Operators.Arithmetic.Subtraction)))
  {
    var w := Window("-");
    assert w == [HyphenMinus];
    assert Table1(w[0]) == Some(Operator(Operators.Arithmetic(Operators.Arithmetic.Subtraction)));
  }

  lemma ArithmeticDivisionRecognised()
    ensures Lookup(Window("/")) == Some(Operator(Operators.Arithmetic(Operators.Arithmetic.Division)))
  {
    var w := Window("/");
    assert w == [Solidus];
    assert Table1(w[0]) == Some(Operator(Operators.Arithmetic(Operators.Arithmetic.Division)));
  }

  lemma ArithmeticMultiplicationRecognised()
    ensures Lookup(Window("*")) == Some(Operator(Operators.Arithmetic(Operators.Arithmetic.Multiplication)))
  {
    var w := Window("*");
    assert w == [Asterisk];
    assert Table1(w[0]) == Some(Operator(Operators.Arithmetic(Operators.Arithmetic.Multiplication)));
  }

  lemma ArithmeticRemainderRecognised()
    ensures Lookup(Window("%")) == Some(Operator(Operators.Arithmetic(Operators.Arithmetic.Remainder)))
  {
    var w := Window("%");
    assert w == [PercentageSign];
    assert Table1(w[0]) == Some(Operator(Operators.Arithmetic(Operators.Arithmetic.Remainder)));
  }

  lemma ArithmeticExponentiationRecognised()
    ensures Lookup(Window("^^")) == Some(Operator(Operators.Arithmetic(Operators.Arithmetic.Exponentiation)))
  {
    var w := Window("^^");
    assert w == [CircumflexAccent, CircumflexAccent];
    assert Table2(w[0], w[1]) == Some(Operator(Operators.Arithmetic(Operators.Arithmetic.Exponentiation)));
  }

  lemma LogicalAndRecognised()
    ensures Lookup(Window("&&")) == Some(Operator(Operators.Logical(Operators.Logical.And)))
  {
    var w := Window("&&");
    assert w == [Ampersand, Ampersand];
    assert Table2(w[0], w[1]) == Some(Operator(Operators.Logical(Operators.Logical.And)));
  }

  lemma LogicalOrRecognised()
    ensures Lookup(Window("||")) == Some(Operator(Operators.Logical(Operators.Logical.Or)))
  {
    var w := Window("||");
    assert w == [VerticalLine, VerticalLine];
    assert Table2(w[0], w[1]) == Some(Operator(Operators.Logical(Operators.Logical.Or)));
  }

  lemma LogicalNotRecognised()
    ensures Lookup(Window("!")) == Some(Operator(Operators.Logical(Operators.Logical.Not)))
  {
    var w := Window("!");
    assert w == [ExclamationMark];
    assert Table1(w[0]) == Some(Operator(Operators.Logical(Operators.Logical.Not)));
  }

  lemma BitwiseAndRecognised()
    ensures Lookup(Window("&")) == Some(Operator(Operators.Bitwise(Operators.Bitwise.And)))
  {
    var w := Window("&");
    assert w == [Ampersand];
    assert Table1(w[0]) == Some(Operator(Operators.Bitwise(Operators.Bitwise.And)));
  }

  lemma BitwiseOrRecognised()
    ensures Lookup(Window("|")) == Some(Operator(Operators.Bitwise(Operators.Bitwise.Or)))
  {
    var w := Window("|");
    assert w == [VerticalLine];
    assert Table1(w[0]) == Some(Operator(Operators.Bitwise(Operators.Bitwise.Or)));
  }

  lemma BitwiseXorRecognised()
    ensures Lookup(Window("^")) == Some(Operator(Operators.Bitwise(Operators.Bitwise.Xor)))
  {
    var w := Window("^");
    assert w == [CircumflexAccent];
    assert Table1(w[0]) == Some(Operator(Operators.Bitwise(Operators.Bitwise.Xor)));
  }

  lemma BitwiseNotRecognised()
    ensures Lookup(Window("~")) == Some(Operator(Operators.Bitwise(Operators.Bitwise.Not)))
  {
    var w := Window("~");
    assert w == [Tilde];
    assert Table1(w[0]) == Some(Operator(Operators.Bitwise(Operators.Bitwise.Not)));
  }

  lemma BitwiseLeftShiftRecognised()
    ensures Lookup(Window("<<")) == Some(Operator(Operators.Bitwise(Operators.Bitwise.LeftShift)))
  {
    var w := Window("<<");
    assert w == [LessThanSign, LessThanSign];
    assert Table2(w[0], w[1]) == Some(Operator(Operators.Bitwise(Operators.Bitwise.LeftShift)));
  }

  lemma BitwiseRightShiftRecognised()
    ensures Lookup(Window(">>")) == Some(Operator(Operators.Bitwise(Operators.Bitwise.RightShift)))
  {
    var w := Window(">>");
    assert w == [GreaterThanSign, GreaterThanSign];
    assert Table2(w[0], w[1]) == Some(Operator(Operators.Bitwise(Operators.Bitwise.RightShift)));
  }

  /** Every symbol is recognised from the window of its own sign. */
  lemma SymbolRecognised(s: Symbols.Symbol)
    ensures 1 <= |Symbols.Sign(s)| <= 3
    ensures Lookup(Window(Symbols.Sign(s))) == Some(Symbol(s))
  {
    match s
    case Escape => EscapeRecognised();
    case At => AtRecognised();
    case Dollar => DollarRecognised();
    case Hash => HashRecognised();
    case Dot => DotRecognised();
    case Range => RangeRecognised();
    case RangeInclusive => RangeInclusiveRecognised();
    case Comma => CommaRecognised();
    case DoubleColon => DoubleColonRecognised();
    case Colon => ColonRecognised();
    case Semicolon => SemicolonRecognised();
    case Underscore => UnderscoreRecognised();
    case Tilde => TildeRecognised();
    case QuestionMark => QuestionMarkRecognised();
    case SkinnyArrow => SkinnyArrowRecognised();
    case FatArrow => FatArrowRecognised();
  }

  lemma AssignmentRecognised(x: Operators.Assignment)
    requires x != Operators.Assignment.Exponentiation
    ensures 1 <= |Operators.AssignmentSign(x)| <= 3
    ensures Lookup(Window(Operators.AssignmentSign(x))) == Some(Operator(Operators.Assignment(x)))
  {
    match x
    case Equal => AssignmentEqualRecognised();
    case Addition => AssignmentAdditionRecognised();
    case Subtraction => AssignmentSubtractionRecognised();
    case Multiplication => AssignmentMultiplicationRecognised();
    case Division => AssignmentDivisionRecognised();
    case Remainder => AssignmentRemainderRecognised();
    case LeftShift => AssignmentLeftShiftRecognised();
    case RightShift => AssignmentRightShiftRecognised();
    case BitwiseAnd => AssignmentBitwiseAndRecognised();
    case BitwiseXor => AssignmentBitwiseXorRecognised();
    case BitwiseOr => AssignmentBitwiseOrRecognised();
    case LogicalAnd => AssignmentLogicalAndRecognised();
    case LogicalOr => AssignmentLogicalOrRecognised();
  }

  lemma ComparisonRecognised(x: Operators.Comparison)
    ensures 1 <= |Operators.ComparisonSign(x)| <= 3
    ensures Lookup(Window(Operators.ComparisonSign(x))) == Some(Operator(Operators.Comparison(x)))
  {
    match x
    case Equal => ComparisonEqualRecognised();
    case NotEqual => ComparisonNotEqualRecognised();
    case GreaterThan => ComparisonGreaterThanRecognised();
    case GreaterThanOrEqual => ComparisonGreaterThanOrEqualRecognised();
    case LessThan => ComparisonLessThanRecognised();
    case LessThanOrEqual => ComparisonLessThanOrEqualRecognised();
  }

  lemma ArithmeticRecognised(x: Operators.Arithmetic)
    ensures 1 <= |Operators.ArithmeticSign(x)| <= 3
    ensures Lookup(Window(Operators.ArithmeticSign(x))) == Some(Operator(Operators.Arithmetic(x)))
  {
    match x
    case Addition => ArithmeticAdditionRecognised();
    case Subtraction => ArithmeticSubtractionRecognised();
    case Division => ArithmeticDivisionRecognised();
    case Multiplication => ArithmeticMultiplicationRecognised();
    case Remainder => ArithmeticRemainderRecognised();
    case Exponentiation => ArithmeticExponentiationRecognised();
  }

  lemma LogicalRecognised(x: Operators.Logical)
    ensures 1 <= |Operators.LogicalSign(x)| <= 3
    ensures Lookup(Window(Operators.LogicalSign(x))) == Some(Operator(Operators.Logical(x)))
  {
    match x
    case And => LogicalAndRecognised();
    case Or => LogicalOrRecognised();
    case Not => LogicalNotRecognised();
  }

  lemma BitwiseRecognised(x: Operators.Bitwise)
    ensures 1 <= |Operators.BitwiseSign(x)| <= 3
    ensures Lookup(Window(Operators.BitwiseSign(x))) == Some(Operator(Operators.Bitwise(x)))
  {
    match x
    case And => BitwiseAndRecognised();
    case Or => BitwiseOrRecognised();
    case Xor => BitwiseXorRecognised();
    case Not => BitwiseNotRecognised();
    case LeftShift => BitwiseLeftShiftRecognised();
    case RightShift => BitwiseRightShiftRecognised();
  }

  /** Every bracket delimiter is recognised from its code point. */
  lemma PairRecognised(p: BoundaryPairs)
    ensures Lookup([PairCodePoint(p)]) == Some(BoundaryPairs(p))
  {}

  /** `**=` is declared as an assignment operator but is in no table: no
      window of any length yields it, and its own window is rejected. */
  lemma ExponentiationAssignmentUnrecognised(w: seq<CodePoint>)
    requires 1 <= |w| <= 3
    ensures Lookup(w) != Some(Operator(Operators.Assignment(Operators.Assignment.Exponentiation)))
  {
    var x := Operator(Operators.Assignment(Operators.Assignment.Exponentiation));
    assert Sign(x) == Some("**=");
    LookupSound(w);
    if |w| == 3 {
      Table3Values(w[0], w[1], w[2]);
    }
  }

  /** The five delimiters the triple table can find. */
  lemma Table3Values(a: CodePoint, b: CodePoint, c: CodePoint)
    ensures Table3(a, b, c).Some? ==>
      (Table3(a, b, c).value in
         {Symbol(Symbols.RangeInclusive),
          Operator(Operators.Assignment(Operators.Assignment.LeftShift)),
          Operator(Operators.Assignment(Operators.Assignment.RightShift)),
          Operator(Operators.Assignment(Operators.Assignment.LogicalAnd)),
          Operator(Operators.Assignment(Operators.Assignment.LogicalOr))})
  {}

  lemma ExponentiationAssignmentRejected()
    ensures Window("**=") == [Asterisk, Asterisk, EqualsSign]
    ensures TryFrom3(Asterisk, Asterisk, EqualsSign) == Err(Invalid("**="))
  {
    ExponentiationWindow();
    assert Table3(Asterisk, Asterisk, EqualsSign).None?;
    SpellsUnits([Asterisk, Asterisk, EqualsSign], "**=");
  }

  lemma ExponentiationWindow()
    ensures Window("**=") == [Asterisk, Asterisk, EqualsSign]
  {
    var w := Window("**=");
    assert w[0] == From(CharUnit('*')) && w[2] == From(CharUnit('='));
  }

  /** The error of a single code point carries its character, or nothing for
      the three code points without one. */
  lemma InvalidWithoutCharacter()
    ensures TryFrom1(Null) == Err(Invalid(""))
    ensures TryFrom1(Eof) == Err(Invalid(""))
    ensures TryFrom1(Ignore) == Err(Invalid(""))
  {}

  lemma InvalidWithCharacter()
    ensures TryFrom1(QuotationMark) == Err(Invalid("\""))
    ensures TryFrom1(Unit(CharUnit('a'))) == Err(Invalid("a"))
  {}

  /** No operator has the sign of a symbol. */
  lemma OperatorSignIsNotSymbol(op: Operators.Operator)
    ensures Symbols.FromSign(Operators.Sign(op)).None?
  {
    match op
    case Assignment(x) => AssignmentSignIsNotSymbol(x);
    case Comparison(x) => ComparisonSignIsNotSymbol(x);
    case Arithmetic(x) => ArithmeticSignIsNotSymbol(x);
    case Bitwise(x) => BitwiseSignIsNotSymbol(x);
    case Logical(x) => LogicalSignIsNotSymbol(x);
  }

  lemma AssignmentSignIsNotSymbol(x: Operators.Assignment)
    ensures Symbols.FromSign(Operators.AssignmentSign(x)).None?
  {}

  lemma ComparisonSignIsNotSymbol(x: Operators.Comparison)
    ensures Symbols.FromSign(Operators.ComparisonSign(x)).None?
  {}

  lemma ArithmeticSignIsNotSymbol(x: Operators.Arithmetic)
    ensures Symbols.FromSign(Operators.ArithmeticSign(x)).None?
  {}

  lemma BitwiseSignIsNotSymbol(x: Operators.Bitwise)
    ensures Symbols.FromSign(Operators.BitwiseSign(x)).None?
  {}

  lemma LogicalSignIsNotSymbol(x: Operators.Logical)
    ensures Symbols.FromSign(Operators.LogicalSign(x)).None?
  {}

  /** Signs identify delimiters: two symbol or operator delimiters with the
      same sign are the same delimiter. */
  lemma SignsDistinct(d: Delimiter, e: Delimiter)
    requires Sign(d).Some? && Sign(e).Some?
    ensures Sign(d) == Sign(e) <==> d == e
  {
    match d
    case Symbol(s) => {
      Symbols.SignRoundTrip(s);
      match e
      case Symbol(t) => Symbols.SignsDistinct(s, t);
      case Operator(op) => OperatorSignIsNotSymbol(op);
    }
    case Operator(op) => {
      match e
      case Symbol(t) => Symbols.SignRoundTrip(t); OperatorSignIsNotSymbol(op);
      case Operator(op') => Operators.SignsDistinct(op, op');
    }
  }

  /** Every symbol and operator except `**=` is recognised from the window of
      its sign. */
  lemma DelimiterRecognised(d: Delimiter)
    requires Sign(d).Some?
    requires d != Operator(Operators.Assignment(Operators.Assignment.Exponentiation))
    ensures 1 <= |Sign(d).value| <= 3
    ensures Lookup(Window(Sign(d).value)) == Some(d)
  {
    match d
    case Symbol(s) => SymbolRecognised(s);
    case Operator(op) => OperatorRecognised(op);
  }

  lemma OperatorRecognised(op: Operators.Operator)
    requires op != Operators.Assignment(Operators.Assignment.Exponentiation)
    ensures 1 <= |Operators.Sign(op)| <= 3
    ensures Lookup(Window(Operators.Sign(op))) == Some(Operator(op))
  {
    match op
    case Assignment(x) =>
      assert Operators.Sign(op) == Operators.AssignmentSign(x);
      AssignmentRecognised(x);
    case Comparison(x) =>
      assert Operators.Sign(op) == Operators.ComparisonSign(x);
      ComparisonRecognised(x);
    case Arithmetic(x) =>
      assert Operators.Sign(op) == Operators.ArithmeticSign(x);
      ArithmeticRecognised(x);
    case Bitwise(x) =>
      assert Operators.Sign(op) == Operators.BitwiseSign(x);
      BitwiseRecognised(x);
    case Logical(x) =>
      assert Operators.Sign(op) == Operators.LogicalSign(x);
      LogicalRecognised(x);
  }

  /** What the lookup finds, the window spells. */
  lemma LookupSound(w: seq<CodePoint>)
    requires 1 <= |w| <= 3
    ensures Lookup(w).Some? ==> Recognises(w, Lookup(w).value)
  {
    if |w| == 1 {
      assert w == [w[0]];
    } else if |w| == 2 {
      assert w == [w[0], w[1]];
    } else {
      assert w == [w[0], w[1], w[2]];
    }
  }

  /** The display shows the inner variant only, so an assignment and a
      comparison can print alike. */
  lemma DisplayExamples()
    ensures Display(Operator(Operators.Assignment(Operators.Assignment.Equal))) == "equal"
    ensures Display(Operator(Operators.Comparison(Operators.Comparison.Equal))) == "equal"
  {}

  lemma DisplayNameExamples()
    ensures Display(Symbol(Symbols.RangeInclusive)) == "range-inclusive"
    ensures Display(BoundaryPairs(BoundaryPairs.LeftCurlyBracket)) == "left-curly-bracket"
  {}
}
