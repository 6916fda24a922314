/** The `Symbol` delimiter enumeration: sixteen punctuation signs. */
module Symbols {
  import opened Wrappers
  import DelimMacro
  import Text

  datatype Symbol =
    | Escape | At | Dollar | Hash | Dot | Range | RangeInclusive
    | Comma | DoubleColon | Colon | Semicolon | Underscore | Tilde | QuestionMark
    | SkinnyArrow | FatArrow

  /** `sign()`: the declared literal. The sign of `TILDE` is the backquote. */
  function Sign(s: Symbol): (r: string)
    ensures 1 <= |r| <= 3
    ensures FromSign(r) == Some(s)
  {
    match s
    case Escape => "\\"
    case At => "@"
    case Dollar => "$"
    case Hash => "#"
    case Dot => "."
    case Range => ".."
    case RangeInclusive => "..="
    case Comma => ","
    case DoubleColon => "::"
    case Colon => ":"
    case Semicolon => ";"
    case Underscore => "_"
    case Tilde => "`"
    case QuestionMark => "?"
    case SkinnyArrow => "->"
    case FatArrow => "=>"
  }

  // The identifiers of `Name` are spelt in the macro's alphabet.
  lemma NameAlphabet()
    ensures DelimMacro.IsMacroName("ESCAPE")
    ensures DelimMacro.IsMacroName("AT")
    ensures DelimMacro.IsMacroName("DOLLAR")
    ensures DelimMacro.IsMacroName("HASH")
    ensures DelimMacro.IsMacroName("DOT")
    ensures DelimMacro.IsMacroName("RANGE")
    ensures DelimMacro.IsMacroName("RANGE_INCLUSIVE")
    ensures DelimMacro.IsMacroName("COMMA")
    ensures DelimMacro.IsMacroName("DOUBLE_COLON")
    ensures DelimMacro.IsMacroName("COLON")
    ensures DelimMacro.IsMacroName("SEMICOLON")
    ensures DelimMacro.IsMacroName("UNDERSCORE")
    ensures DelimMacro.IsMacroName("TILDE")
    ensures DelimMacro.IsMacroName("QUESTION_MARK")
    ensures DelimMacro.IsMacroName("SKINNY_ARROW")
    ensures DelimMacro.IsMacroName("FAT_ARROW")
  {}

  /** The variant identifier as declared. */
  function Name(s: Symbol): (r: string)
    ensures DelimMacro.IsMacroName(r)
  {
    NameAlphabet();
    match s
    case Escape => "ESCAPE"
    case At => "AT"
    case Dollar => "DOLLAR"
    case Hash => "HASH"
    case Dot => "DOT"
    case Range => "RANGE"
    case RangeInclusive => "RANGE_INCLUSIVE"
    case Comma => "COMMA"
    case DoubleColon => "DOUBLE_COLON"
    case Colon => "COLON"
    case Semicolon => "SEMICOLON"
    case Underscore => "UNDERSCORE"
    case Tilde => "TILDE"
    case QuestionMark => "QUESTION_MARK"
    case SkinnyArrow => "SKINNY_ARROW"
    case FatArrow => "FAT_ARROW"
  }

  function Display(s: Symbol): (r: string)
    ensures |r| == |Name(s)| && 0 < |r|
    ensures forall i :: 0 <= i < |r| ==> Text.IsAsciiLower(r[i]) || r[i] == '-'
  {
    DelimMacro.Display(Name(s))
  }

  /** The symbol whose sign is `sign`, if any. */
  function FromSign(sign: string): Option<Symbol> {
    if sign == "\\" then Some(Escape)
    else if sign == "@" then Some(At)
    else if sign == "$" then Some(Dollar)
    else if sign == "#" then Some(Hash)
    else if sign == "." then Some(Dot)
    else if sign == ".." then Some(Range)
    else if sign == "..=" then Some(RangeInclusive)
    else if sign == "," then Some(Comma)
    else if sign == "::" then Some(DoubleColon)
    else if sign == ":" then Some(Colon)
    else if sign == ";" then Some(Semicolon)
    else if sign == "_" then Some(Underscore)
    else if sign == "`" then Some(Tilde)
    else if sign == "?" then Some(QuestionMark)
    else if sign == "->" then Some(SkinnyArrow)
    else if sign == "=>" then Some(FatArrow)
    else None
  }

  /** The sign table is invertible, so no two symbols share a sign. */
  lemma SignRoundTrip(s: Symbol)
    ensures FromSign(Sign(s)) == Some(s)
    ensures 1 <= |Sign(s)| <= 3
  {}

  lemma SignsDistinct(a: Symbol, b: Symbol)
    ensures Sign(a) == Sign(b) <==> a == b
  {
    SignRoundTrip(a);
    SignRoundTrip(b);
  }

  /** Every sign `FromSign` accepts is the sign of the symbol it returns. */
  lemma FromSignSound(sign: string)
    ensures FromSign(sign).Some? ==> Sign(FromSign(sign).value) == sign
  {}

  /** Distinct symbols print differently. */
  lemma DisplaysDistinct(a: Symbol, b: Symbol)
    ensures Display(a) == Display(b) <==> a == b
  {
    if Display(a) == Display(b) {
      DelimMacro.DisplayInjective(Name(a), Name(b));
      NameRoundTrip(a);
      NameRoundTrip(b);
    }
  }

  /** The identifier table is invertible. */
  lemma NameRoundTrip(s: Symbol)
    ensures FromName(Name(s)) == Some(s)
  {}

  function FromName(name: string): Option<Symbol> {
    if name == "ESCAPE" then Some(Escape)
    else if name == "AT" then Some(At)
    else if name == "DOLLAR" then Some(Dollar)
    else if name == "HASH" then Some(Hash)
    else if name == "DOT" then Some(Dot)
    else if name == "RANGE" then Some(Range)
    else if name == "RANGE_INCLUSIVE" then Some(RangeInclusive)
    else if name == "COMMA" then Some(Comma)
    else if name == "DOUBLE_COLON" then Some(DoubleColon)
    else if name == "COLON" then Some(Colon)
    else if name == "SEMICOLON" then Some(Semicolon)
    else if name == "UNDERSCORE" then Some(Underscore)
    else if name == "TILDE" then Some(Tilde)
    else if name == "QUESTION_MARK" then Some(QuestionMark)
    else if name == "SKINNY_ARROW" then Some(SkinnyArrow)
    else if name == "FAT_ARROW" then Some(FatArrow)
    else None
  }

  /** The overlaps maximal munch has to resolve: "." starts "..", which
      starts "..=", and ":" starts "::". */
  lemma PrefixOverlaps()
    ensures Sign(Dot) < Sign(Range) < Sign(RangeInclusive)
    ensures Sign(Colon) < Sign(DoubleColon)
    ensures Sign(Tilde) == "`"
  {}

  lemma DisplayExamples()
    ensures Display(RangeInclusive) == "range-inclusive"
    ensures Display(QuestionMark) == "question-mark"
    ensures Display(Escape) == "escape"
  {}
}
