/** Code-point classification.

    A scannable unit is either a Unicode scalar (`char`) or a raw byte (`u8`).
    The classification trait answers integer-range questions about the unit's
    value; both implementations are generated from one macro and cast the unit
    to `char` first, so each predicate below is defined once, over the value.

    `CodePoint` is the tagged union built from a unit: newline, whitespace,
    one variant per single-character symbol of the table, or a plain `Unit`,
    plus the two control values `Eof` and `Ignore`. */
module CodePoints {
  import opened Wrappers

  datatype UnitKind = Char | Byte

  /** A unit of either kind, with the predicates of the classification trait.
      The predicates look only at `value`: for a byte, `as char` is the identity. */
  datatype RawUnit = RawUnit(kind: UnitKind, value: nat) {

    predicate WellFormed() {
      match kind
      case Char => value <= 0x10FFFF && !(0xD800 <= value <= 0xDFFF)
      case Byte => value <= 0xFF
    }

    /** `is(c)`: the unit, cast to `char`, equals `c`. */
    predicate Is(c: char) { value == c as int }

    predicate IsC0Control() { value <= 0x1F }

    predicate IsC0ControlOrSpace() { IsC0Control() || Is(' ') }

    predicate IsDigit() { 0x30 <= value <= 0x39 }

    predicate IsLowercaseLetter() { 0x61 <= value <= 0x7A }

    predicate IsUppercaseLetter() { 0x41 <= value <= 0x5A }

    predicate IsLetter() { IsLowercaseLetter() || IsUppercaseLetter() }

    predicate IsAsciiAlphanumeric() { IsDigit() || IsLetter() }

    predicate IsAsciiCodePoint() { value <= 0x7F }

    predicate IsNonAscii() { value >= 0x80 }

    predicate IsIdentStart() { IsLetter() || IsNonAscii() || Is('_') }

    predicate IsIdentAfterStart() { IsAsciiAlphanumeric() || IsNonAscii() || Is('_') }

    predicate IsIdent() { IsIdentStart() || IsDigit() || Is('-') }

    predicate IsNewline() { Is('\n') || Is('\U{000C}') || Is('\r') }

    /** The eighteen ranges of the source, written out one by one. */
    predicate IsNoncharacter() {
      || 0xFDD0 <= value <= 0xFDEF
      || 0xFFFE <= value <= 0xFFFF
      || 0x1_FFFE <= value <= 0x1_FFFF
      || 0x2_FFFE <= value <= 0x2_FFFF
      || 0x3_FFFE <= value <= 0x3_FFFF
      || 0x4_FFFE <= value <= 0x4_FFFF
      || 0x5_FFFE <= value <= 0x5_FFFF
      || 0x6_FFFE <= value <= 0x6_FFFF
      || 0x7_FFFE <= value <= 0x7_FFFF
      || 0x8_FFFE <= value <= 0x8_FFFF
      || 0x9_FFFE <= value <= 0x9_FFFF
      || 0xA_FFFE <= value <= 0xA_FFFF
      || 0xB_FFFE <= value <= 0xB_FFFF
      || 0xC_FFFE <= value <= 0xC_FFFF
      || 0xD_FFFE <= value <= 0xD_FFFF
      || 0xE_FFFE <= value <= 0xE_FFFF
      || 0xF_FFFE <= value <= 0xF_FFFF
      || 0x10_FFFE <= value <= 0x10_FFFF
    }

    predicate IsNull() { Is('\0') }

    /** As written: the range has one hex digit too many (0xD_8000 ..= 0xD_FFFF). */
    predicate IsSurrogate() { 0xD_8000 <= value <= 0xD_FFFF }

    predicate IsScalarValue() { !IsSurrogate() }

    /** The range the trait documents: U+D800 ..= U+DFFF. */
    predicate IsSurrogateCorrected() { 0xD800 <= value <= 0xDFFF }

    predicate IsScalarValueCorrected() { !IsSurrogateCorrected() }

    /** Rust's `char::is_whitespace`: the Unicode White_Space property. */
    predicate IsWhitespace() {
      || 0x09 <= value <= 0x0D
      || value == 0x20
      || value == 0x85
      || value == 0xA0
      || value == 0x1680
      || 0x2000 <= value <= 0x200A
      || value == 0x2028
      || value == 0x2029
      || value == 0x202F
      || value == 0x205F
      || value == 0x3000
    }
  }

  type Unit = u: RawUnit | u.WellFormed() witness RawUnit(Byte, 0)

  function CharUnit(c: char): Unit {
    RawUnit(Char, c as int)
  }

  function ByteUnit(b: nat): Unit
    requires b <= 0xFF
  {
    RawUnit(Byte, b)
  }

  /** `as_char`: a byte is read as the code point of the same value. */
  function AsChar(u: Unit): (c: char)
    ensures c as int == u.value
  {
    u.value as char
  }

  /** `as_byte`: `as u8` keeps the low eight bits. */
  function AsByte(u: Unit): (b: nat)
    ensures b <= 0xFF
    ensures u.kind == Byte ==> b == u.value
    ensures u.value <= 0xFF ==> b == u.value
  {
    u.value % 0x100
  }

  // ---------------------------------------------------------------------
  // Properties of the classification predicates
  // ---------------------------------------------------------------------

  lemma ScalarValueIsNotSurrogate(u: Unit)
    ensures u.IsScalarValue() <==> !u.IsSurrogate()
  {}

  /** The surrogate test as written holds on 0xD8000..=0xDFFFF, which are valid
      scalars; it never holds for a byte. */
  lemma SurrogateAsWritten(u: Unit)
    ensures u.IsSurrogate() <==> u.kind == Char && 0xD8000 <= u.value <= 0xDFFFF
    ensures u.kind == Byte ==> !u.IsSurrogate()
  {}

  /** The test as written calls U+D8000, a valid scalar of plane 13, a
      surrogate, and misses the real surrogate U+D800. */
  lemma SurrogateCounterexample()
    ensures RawUnit(Char, 0xD8000).WellFormed() && RawUnit(Char, 0xD8000).IsSurrogate()
    ensures !RawUnit(Char, 0xD8000).IsScalarValue()
    ensures !RawUnit(Char, 0xD800).IsSurrogate()
  {}

  /** With the documented range, no unit of either kind is a surrogate, so
      every unit is a scalar value; and a character value is well formed
      exactly when it is in range and the corrected test rejects it. */
  lemma SurrogateCorrected(u: Unit, v: nat)
    ensures !u.IsSurrogateCorrected() && u.IsScalarValueCorrected()
    ensures RawUnit(Char, v).WellFormed() <==> v <= 0x10FFFF && RawUnit(Char, v).IsScalarValueCorrected()
  {}

  lemma NewlineExactly(u: Unit)
    ensures u.IsNewline() <==> u.value == 0x0A || u.value == 0x0C || u.value == 0x0D
    ensures u.IsNewline() ==> u.IsWhitespace()
  {}

  lemma C0ControlBounds(u: Unit)
    ensures u.IsC0Control() <==> u.value <= 0x1F
    ensures u.IsC0ControlOrSpace() <==> u.value <= 0x1F || u.value == 0x20
  {}

  lemma AsciiIsNotNonAscii(u: Unit)
    ensures u.IsAsciiCodePoint() <==> u.value <= 0x7F
    ensures u.IsAsciiCodePoint() <==> !u.IsNonAscii()
  {}

  lemma LetterIsIdentStartAndAfterStart(u: Unit)
    ensures u.IsLetter() <==> 'a' as int <= u.value <= 'z' as int || 'A' as int <= u.value <= 'Z' as int
    ensures u.IsLetter() ==> u.IsIdentStart() && u.IsIdentAfterStart()
  {}

  lemma IdentStartIsIdent(u: Unit)
    ensures u.IsIdentStart() ==> u.IsIdent()
    ensures u.IsDigit() ==> u.IsIdent() && !u.IsIdentStart()
    ensures u.Is('-') ==> u.IsIdent() && !u.IsIdentStart()
  {}

  /** The written-out list of noncharacters is exactly U+FDD0..U+FDEF plus
      every code point whose low sixteen bits are 0xFFFE or 0xFFFF. */
  lemma NoncharacterLowBits(u: Unit)
    ensures u.IsNoncharacter() <==> (0xFDD0 <= u.value <= 0xFDEF || u.value % 0x10000 >= 0xFFFE)
    ensures u.kind == Byte ==> !u.IsNoncharacter()
  {
    var v := u.value;
    var plane := v / 0x10000;
    assert v == plane * 0x10000 + v % 0x10000;
    assert plane <= 0x10;
    if v % 0x10000 >= 0xFFFE {
      assert plane * 0x10000 + 0xFFFE <= v <= plane * 0x10000 + 0xFFFF;
      PlaneRangeIsNoncharacter(u, plane);
    }
  }

  lemma PlaneRangeIsNoncharacter(u: Unit, plane: nat)
    requires plane <= 0x10
    requires plane * 0x10000 + 0xFFFE <= u.value <= plane * 0x10000 + 0xFFFF
    ensures u.IsNoncharacter()
  {}

  // ---------------------------------------------------------------------
  // CodePoint
  // ---------------------------------------------------------------------

  /** The classified code point. The symbol variants carry no unit: their
      character is fixed by the symbol table. */
  datatype CodePoint =
    | Unit(unit: Unit)
    | Whitespace(unit: Unit)
    | Newline(unit: Unit)
    | ExclamationMark | QuotationMark | NumberSign | PercentageSign | Ampersand
    | Apostrophe | Asterisk | PlusSign | HyphenMinus | Solidus
    | LessThanSign | GreaterThanSign | QuestionMark | ReverseSolidus
    | LeftSquareBracket | RightSquareBracket | LeftParenthesis | RightParenthesis
    | LeftCurlyBracket | RightCurlyBracket | FullStop | Comma | Colon | Semicolon
    | EqualsSign | CircumflexAccent | VerticalLine | Tilde | Null
    | Eof
    | Ignore
  {
    /** `maybe_unit`: the character of the code point, absent for NULL, EOF and Ignore. */
    function MaybeUnit(): (r: Option<char>)
      ensures Null? || Eof? || Ignore? ==> r.None?
      ensures Unit? || Whitespace? || Newline? ==> r == Some(AsChar(unit))
    {
      match this
      case Unit(u) => Some(AsChar(u))
      case Whitespace(u) => Some(AsChar(u))
      case Newline(u) => Some(AsChar(u))
      case Null => None
      case Eof => None
      case Ignore => None
      case _ => SymbolChar(this)
    }

    /** `is_valid`: every code point except NULL, EOF and Ignore. */
    predicate IsValid(): (b: bool)
      ensures b <==> MaybeUnit().Some?
    {
      !(Null? || Eof? || Ignore?)
    }

    /** `unit()`: panics (so is required away) when there is no character. */
    function UnitChar(): (c: char)
      requires MaybeUnit().Some?
      ensures Some(c) == MaybeUnit()
    {
      MaybeUnit().value
    }

    /** `is(c)` on a code point, through `unit()`. */
    predicate Is(c: char): (b: bool)
      requires MaybeUnit().Some?
      ensures b <==> MaybeUnit() == Some(c)
    {
      UnitChar() == c
    }

    // The code-point-level predicates apply the `char` implementation to the
    // character of `maybe_unit`, and default to false when there is none.

    predicate IsIdent() {
      match MaybeUnit()
      case Some(c) => CharUnit(c).IsIdent()
      case None => false
    }

    predicate IsIdentStart() {
      match MaybeUnit()
      case Some(c) => CharUnit(c).IsIdentStart()
      case None => false
    }

    predicate IsIdentAfterStart() {
      match MaybeUnit()
      case Some(c) => CharUnit(c).IsIdentAfterStart()
      case None => false
    }

    predicate IsNewline() {
      match MaybeUnit()
      case Some(c) => CharUnit(c).IsNewline()
      case None => false
    }

    predicate IsWhitespace() {
      match MaybeUnit()
      case Some(c) => CharUnit(c).IsWhitespace()
      case None => false
    }
  }

  /** The symbol table of the `impl_codepoint!` invocation: character to variant. */
  function SymbolFor(c: char): Option<CodePoint> {
    match c
    case '!' => Some(ExclamationMark)
    case '"' => Some(QuotationMark)
    case '#' => Some(NumberSign)
    case '%' => Some(PercentageSign)
    case '&' => Some(Ampersand)
    case '\'' => Some(Apostrophe)
    case '*' => Some(Asterisk)
    case '+' => Some(PlusSign)
    case '-' => Some(HyphenMinus)
    case '/' => Some(Solidus)
    case '<' => Some(LessThanSign)
    case '>' => Some(GreaterThanSign)
    case '?' => Some(QuestionMark)
    case '\\' => Some(ReverseSolidus)
    case '[' => Some(LeftSquareBracket)
    case ']' => Some(RightSquareBracket)
    case '(' => Some(LeftParenthesis)
    case ')' => Some(RightParenthesis)
    case '{' => Some(LeftCurlyBracket)
    case '}' => Some(RightCurlyBracket)
    case '.' => Some(FullStop)
    case ',' => Some(Comma)
    case ':' => Some(Colon)
    case ';' => Some(Semicolon)
    case '=' => Some(EqualsSign)
    case '^' => Some(CircumflexAccent)
    case '|' => Some(VerticalLine)
    case '~' => Some(Tilde)
    case '\0' => Some(Null)
    case _ => None
  }

  /** The same table read from variant to character (`None` off the table). */
  function SymbolChar(cp: CodePoint): Option<char> {
    match cp
    case ExclamationMark => Some('!')
    case QuotationMark => Some('"')
    case NumberSign => Some('#')
    case PercentageSign => Some('%')
    case Ampersand => Some('&')
    case Apostrophe => Some('\'')
    case Asterisk => Some('*')
    case PlusSign => Some('+')
    case HyphenMinus => Some('-')
    case Solidus => Some('/')
    case LessThanSign => Some('<')
    case GreaterThanSign => Some('>')
    case QuestionMark => Some('?')
    case ReverseSolidus => Some('\\')
    case LeftSquareBracket => Some('[')
    case RightSquareBracket => Some(']')
    case LeftParenthesis => Some('(')
    case RightParenthesis => Some(')')
    case LeftCurlyBracket => Some('{')
    case RightCurlyBracket => Some('}')
    case FullStop => Some('.')
    case Comma => Some(',')
    case Colon => Some(':')
    case Semicolon => Some(';')
    case EqualsSign => Some('=')
    case CircumflexAccent => Some('^')
    case VerticalLine => Some('|')
    case Tilde => Some('~')
    case Null => Some('\0')
    case _ => None
  }

  /** A variant of the symbol table. */
  predicate IsSymbol(cp: CodePoint) { SymbolChar(cp).Some? }

  /** The two readings of the symbol table are inverse to each other. */
  lemma SymbolTableInverse(c: char, cp: CodePoint)
    ensures SymbolFor(c) == Some(cp) <==> SymbolChar(cp) == Some(c)
  {}

  /** `From<U> for CodePoint<U>`: newline first, then whitespace, then the
      symbol table, then the plain unit. */
  function From(u: Unit): (cp: CodePoint)
    ensures !cp.Eof? && !cp.Ignore?
  {
    if u.IsNewline() then Newline(u)
    else if u.IsWhitespace() then Whitespace(u)
    else match SymbolFor(AsChar(u))
      case Some(symbol) => symbol
      case None => Unit(u)
  }

  // ---------------------------------------------------------------------
  // Properties of the classifier
  // ---------------------------------------------------------------------

  /** Priority: newline over whitespace over the symbol table over `Unit`. */
  lemma FromPriority(u: Unit)
    ensures From(u).Newline? <==> u.IsNewline()
    ensures From(u).Whitespace? <==> u.IsWhitespace() && !u.IsNewline()
    ensures From(u).Unit? <==> !u.IsWhitespace() && SymbolFor(AsChar(u)).None?
    ensures From(u).Newline? || From(u).Whitespace? || From(u).Unit? ==> From(u).unit == u
    ensures IsSymbol(From(u)) <==> !u.IsWhitespace() && SymbolFor(AsChar(u)).Some?
    ensures IsSymbol(From(u)) ==> SymbolChar(From(u)) == Some(AsChar(u))
    ensures !From(u).Eof? && !From(u).Ignore?
  {
    NewlineExactly(u);
    if !u.IsWhitespace() {
      match SymbolFor(AsChar(u))
      case Some(symbol) => SymbolTableInverse(AsChar(u), symbol);
      case None =>
    }
  }

  /** Characters outside the table stay plain units. */
  lemma UnlistedStayUnits()
    ensures From(CharUnit('_')) == Unit(CharUnit('_'))
    ensures From(CharUnit('@')) == Unit(CharUnit('@'))
    ensures From(CharUnit('$')) == Unit(CharUnit('$'))
  {}

  lemma BackquoteAndLetterStayUnits()
    ensures From(CharUnit('`')) == Unit(CharUnit('`'))
    ensures From(CharUnit('a')) == Unit(CharUnit('a'))
  {}

  /** The byte 0x85 (NEXT LINE as a character) is whitespace but not a newline;
      a carriage return is a newline. */
  lemma NextLineAndCarriageReturn()
    ensures From(ByteUnit(0x85)) == Whitespace(ByteUnit(0x85))
    ensures From(CharUnit('\r')) == Newline(CharUnit('\r'))
  {}

  /** Classifying a unit never loses its character, except NUL, whose variant has none. */
  lemma FromKeepsCharacter(u: Unit)
    ensures From(u).MaybeUnit() == if u.value == 0 then None else Some(AsChar(u))
  {
    FromPriority(u);
  }

  /** `unit()` is defined exactly on the valid code points. */
  lemma ValidIffHasCharacter(cp: CodePoint)
    ensures cp.IsValid() <==> cp.MaybeUnit().Some?
  {}

  lemma FromValidIffNotNul(u: Unit)
    ensures From(u).IsValid() <==> u.value != 0
  {
    FromKeepsCharacter(u);
    ValidIffHasCharacter(From(u));
  }

  /** The code-point-level predicates are false on NULL, EOF and Ignore. */
  lemma InvalidClassifiesAsNothing(cp: CodePoint)
    requires !cp.IsValid()
    ensures !cp.IsNewline() && !cp.IsWhitespace()
    ensures !cp.IsIdent() && !cp.IsIdentStart() && !cp.IsIdentAfterStart()
  {}

  /** On a classified character, the code-point-level predicates agree with the unit's. */
  lemma CodePointPredicatesAgree(c: char)
    requires c != '\0'
    ensures From(CharUnit(c)).IsNewline() == CharUnit(c).IsNewline()
    ensures From(CharUnit(c)).IsWhitespace() == CharUnit(c).IsWhitespace()
    ensures From(CharUnit(c)).IsIdent() == CharUnit(c).IsIdent()
    ensures From(CharUnit(c)).IsIdentStart() == CharUnit(c).IsIdentStart()
  {
    FromKeepsCharacter(CharUnit(c));
  }
}
