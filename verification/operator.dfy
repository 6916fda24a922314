/** The operator delimiters: five enumerations generated by `delim!`
    (assignment, comparison, arithmetic, logical, bitwise) and the `Operator`
    sum over them. Variants of different enumerations share identifiers
    (`EQUAL`, `ADDITION`, `AND`, ...), so they are written qualified. */
module Operators {
  import opened Wrappers
  import DelimMacro
  import Text

  /** Assignment operators. */
  datatype Assignment = Equal | Addition | Subtraction | Multiplication | Division | Remainder | Exponentiation | LeftShift | RightShift | BitwiseAnd | BitwiseXor | BitwiseOr | LogicalAnd | LogicalOr

  function AssignmentSign(x: Assignment): string {
    match x
    case Equal => "="
    case Addition => "+="
    case Subtraction => "-="
    case Multiplication => "*="
    case Division => "/="
    case Remainder => "%="
    case Exponentiation => "**="
    case LeftShift => "<<="
    case RightShift => ">>="
    case BitwiseAnd => "&="
    case BitwiseXor => "^="
    case BitwiseOr => "|="
    case LogicalAnd => "&&="
    case LogicalOr => "||="
  }

  // The identifiers of `AssignmentName` are spelt in the macro's alphabet.
  lemma AssignmentNameAlphabet()
    ensures DelimMacro.IsMacroName("EQUAL")
    ensures DelimMacro.IsMacroName("ADDITION")
    ensures DelimMacro.IsMacroName("SUBTRACTION")
    ensures DelimMacro.IsMacroName("MULTIPLICATION")
    ensures DelimMacro.IsMacroName("DIVISION")
    ensures DelimMacro.IsMacroName("REMAINDER")
    ensures DelimMacro.IsMacroName("EXPONENTIATION")
    ensures DelimMacro.IsMacroName("LEFT_SHIFT")
    ensures DelimMacro.IsMacroName("RIGHT_SHIFT")
    ensures DelimMacro.IsMacroName("BITWISE_AND")
    ensures DelimMacro.IsMacroName("BITWISE_XOR")
    ensures DelimMacro.IsMacroName("BITWISE_OR")
    ensures DelimMacro.IsMacroName("LOGICAL_AND")
    ensures DelimMacro.IsMacroName("LOGICAL_OR")
  {}

  function AssignmentName(x: Assignment): (r: string)
    ensures DelimMacro.IsMacroName(r)
  {
    AssignmentNameAlphabet();
    match x
    case Equal => "EQUAL"
    case Addition => "ADDITION"
    case Subtraction => "SUBTRACTION"
    case Multiplication => "MULTIPLICATION"
    case Division => "DIVISION"
    case Remainder => "REMAINDER"
    case Exponentiation => "EXPONENTIATION"
    case LeftShift => "LEFT_SHIFT"
    case RightShift => "RIGHT_SHIFT"
    case BitwiseAnd => "BITWISE_AND"
    case BitwiseXor => "BITWISE_XOR"
    case BitwiseOr => "BITWISE_OR"
    case LogicalAnd => "LOGICAL_AND"
    case LogicalOr => "LOGICAL_OR"
  }

  function AssignmentFromSign(sign: string): (r: Option<Assignment>)
    ensures r.Some? ==> AssignmentSign(r.value) == sign
  {
    if sign == "=" then Some(Assignment.Equal)
    else if sign == "+=" then Some(Assignment.Addition)
    else if sign == "-=" then Some(Assignment.Subtraction)
    else if sign == "*=" then Some(Assignment.Multiplication)
    else if sign == "/=" then Some(Assignment.Division)
    else if sign == "%=" then Some(Assignment.Remainder)
    else if sign == "**=" then Some(Assignment.Exponentiation)
    else if sign == "<<=" then Some(Assignment.LeftShift)
    else if sign == ">>=" then Some(Assignment.RightShift)
    else if sign == "&=" then Some(Assignment.BitwiseAnd)
    else if sign == "^=" then Some(Assignment.BitwiseXor)
    else if sign == "|=" then Some(Assignment.BitwiseOr)
    else if sign == "&&=" then Some(Assignment.LogicalAnd)
    else if sign == "||=" then Some(Assignment.LogicalOr)
    else None
  }

  function AssignmentFromName(name: string): Option<Assignment> {
    if name == "EQUAL" then Some(Assignment.Equal)
    else if name == "ADDITION" then Some(Assignment.Addition)
    else if name == "SUBTRACTION" then Some(Assignment.Subtraction)
    else if name == "MULTIPLICATION" then Some(Assignment.Multiplication)
    else if name == "DIVISION" then Some(Assignment.Division)
    else if name == "REMAINDER" then Some(Assignment.Remainder)
    else if name == "EXPONENTIATION" then Some(Assignment.Exponentiation)
    else if name == "LEFT_SHIFT" then Some(Assignment.LeftShift)
    else if name == "RIGHT_SHIFT" then Some(Assignment.RightShift)
    else if name == "BITWISE_AND" then Some(Assignment.BitwiseAnd)
    else if name == "BITWISE_XOR" then Some(Assignment.BitwiseXor)
    else if name == "BITWISE_OR" then Some(Assignment.BitwiseOr)
    else if name == "LOGICAL_AND" then Some(Assignment.LogicalAnd)
    else if name == "LOGICAL_OR" then Some(Assignment.LogicalOr)
    else None
  }

  /** The sign table of `Assignment` is invertible: no two variants share a sign. */
  lemma AssignmentSignInvertible(x: Assignment)
    ensures AssignmentFromSign(AssignmentSign(x)) == Some(x)
  {}

  /** No two variants of `Assignment` share an identifier. */
  lemma AssignmentNameInvertible(x: Assignment)
    ensures AssignmentFromName(AssignmentName(x)) == Some(x)
  {}

  /** Comparison operators. */
  datatype Comparison = Equal | NotEqual | GreaterThan | GreaterThanOrEqual | LessThan | LessThanOrEqual

  function ComparisonSign(x: Comparison): string {
    match x
    case Equal => "=="
    case NotEqual => "!="
    case GreaterThan => ">"
    case GreaterThanOrEqual => ">="
    case LessThan => "<"
    case LessThanOrEqual => "<="
  }

  // The identifiers of `ComparisonName` are spelt in the macro's alphabet.
  lemma ComparisonNameAlphabet()
    ensures DelimMacro.IsMacroName("EQUAL")
    ensures DelimMacro.IsMacroName("NOT_EQUAL")
    ensures DelimMacro.IsMacroName("GREATER_THAN")
    ensures DelimMacro.IsMacroName("GREATER_THAN_OR_EQUAL")
    ensures DelimMacro.IsMacroName("LESS_THAN")
    ensures DelimMacro.IsMacroName("LESS_THAN_OR_EQUAL")
  {}

  function ComparisonName(x: Comparison): (r: string)
    ensures DelimMacro.IsMacroName(r)
  {
    ComparisonNameAlphabet();
    match x
    case Equal => "EQUAL"
    case NotEqual => "NOT_EQUAL"
    case GreaterThan => "GREATER_THAN"
    case GreaterThanOrEqual => "GREATER_THAN_OR_EQUAL"
    case LessThan => "LESS_THAN"
    case LessThanOrEqual => "LESS_THAN_OR_EQUAL"
  }

  function ComparisonFromSign(sign: string): (r: Option<Comparison>)
    ensures r.Some? ==> ComparisonSign(r.value) == sign
  {
    if sign == "==" then Some(Comparison.Equal)
    else if sign == "!=" then Some(Comparison.NotEqual)
    else if sign == ">" then Some(Comparison.GreaterThan)
    else if sign == ">=" then Some(Comparison.GreaterThanOrEqual)
    else if sign == "<" then Some(Comparison.LessThan)
    else if sign == "<=" then Some(Comparison.LessThanOrEqual)
    else None
  }

  function ComparisonFromName(name: string): Option<Comparison> {
    if name == "EQUAL" then Some(Comparison.Equal)
    else if name == "NOT_EQUAL" then Some(Comparison.NotEqual)
    else if name == "GREATER_THAN" then Some(Comparison.GreaterThan)
    else if name == "GREATER_THAN_OR_EQUAL" then Some(Comparison.GreaterThanOrEqual)
    else if name == "LESS_THAN" then Some(Comparison.LessThan)
    else if name == "LESS_THAN_OR_EQUAL" then Some(Comparison.LessThanOrEqual)
    else None
  }

  /** The sign table of `Comparison` is invertible: no two variants share a sign. */
  lemma ComparisonSignInvertible(x: Comparison)
    ensures ComparisonFromSign(ComparisonSign(x)) == Some(x)
  {}

  /** No two variants of `Comparison` share an identifier. */
  lemma ComparisonNameInvertible(x: Comparison)
    ensures ComparisonFromName(ComparisonName(x)) == Some(x)
  {}

  /** Arithmetic operators. */
  datatype Arithmetic = Addition | Subtraction | Division | Multiplication | Remainder | Exponentiation

  function ArithmeticSign(x: Arithmetic): string {
    match x
    case Addition => "+"
    case Subtraction => "-"
    case Division => "/"
    case Multiplication => "*"
    case Remainder => "%"
    case Exponentiation => "^^"
  }

  // The identifiers of `ArithmeticName` are spelt in the macro's alphabet.
  lemma ArithmeticNameAlphabet()
    ensures DelimMacro.IsMacroName("ADDITION")
    ensures DelimMacro.IsMacroName("SUBTRACTION")
    ensures DelimMacro.IsMacroName("DIVISION")
    ensures DelimMacro.IsMacroName("MULTIPLICATION")
    ensures DelimMacro.IsMacroName("REMAINDER")
    ensures DelimMacro.IsMacroName("EXPONENTIATION")
  {}

  function ArithmeticName(x: Arithmetic): (r: string)
    ensures DelimMacro.IsMacroName(r)
  {
    ArithmeticNameAlphabet();
    match x
    case Addition => "ADDITION"
    case Subtraction => "SUBTRACTION"
    case Division => "DIVISION"
    case Multiplication => "MULTIPLICATION"
    case Remainder => "REMAINDER"
    case Exponentiation => "EXPONENTIATION"
  }

  function ArithmeticFromSign(sign: string): (r: Option<Arithmetic>)
    ensures r.Some? ==> ArithmeticSign(r.value) == sign
  {
    if sign == "+" then Some(Arithmetic.Addition)
    else if sign == "-" then Some(Arithmetic.Subtraction)
    else if sign == "/" then Some(Arithmetic.Division)
    else if sign == "*" then Some(Arithmetic.Multiplication)
    else if sign == "%" then Some(Arithmetic.Remainder)
    else if sign == "^^" then Some(Arithmetic.Exponentiation)
    else None
  }

  function ArithmeticFromName(name: string): Option<Arithmetic> {
    if name == "ADDITION" then Some(Arithmetic.Addition)
    else if name == "SUBTRACTION" then Some(Arithmetic.Subtraction)
    else if name == "DIVISION" then Some(Arithmetic.Division)
    else if name == "MULTIPLICATION" then Some(Arithmetic.Multiplication)
    else if name == "REMAINDER" then Some(Arithmetic.Remainder)
    else if name == "EXPONENTIATION" then Some(Arithmetic.Exponentiation)
    else None
  }

  /** The sign table of `Arithmetic` is invertible: no two variants share a sign. */
  lemma ArithmeticSignInvertible(x: Arithmetic)
    ensures ArithmeticFromSign(ArithmeticSign(x)) == Some(x)
  {}

  /** No two variants of `Arithmetic` share an identifier. */
  lemma ArithmeticNameInvertible(x: Arithmetic)
    ensures ArithmeticFromName(ArithmeticName(x)) == Some(x)
  {}

  /** Logical operators. */
  datatype Logical = And | Or | Not

  function LogicalSign(x: Logical): string {
    match x
    case And => "&&"
    case Or => "||"
    case Not => "!"
  }

  // The identifiers of `LogicalName` are spelt in the macro's alphabet.
  lemma LogicalNameAlphabet()
    ensures DelimMacro.IsMacroName("AND")
    ensures DelimMacro.IsMacroName("OR")
    ensures DelimMacro.IsMacroName("NOT")
  {}

  function LogicalName(x: Logical): (r: string)
    ensures DelimMacro.IsMacroName(r)
  {
    LogicalNameAlphabet();
    match x
    case And => "AND"
    case Or => "OR"
    case Not => "NOT"
  }

  function LogicalFromSign(sign: string): (r: Option<Logical>)
    ensures r.Some? ==> LogicalSign(r.value) == sign
  {
    if sign == "&&" then Some(Logical.And)
    else if sign == "||" then Some(Logical.Or)
    else if sign == "!" then Some(Logical.Not)
    else None
  }

  function LogicalFromName(name: string): Option<Logical> {
    if name == "AND" then Some(Logical.And)
    else if name == "OR" then Some(Logical.Or)
    else if name == "NOT" then Some(Logical.Not)
    else None
  }

  /** The sign table of `Logical` is invertible: no two variants share a sign. */
  lemma LogicalSignInvertible(x: Logical)
    ensures LogicalFromSign(LogicalSign(x)) == Some(x)
  {}

  /** No two variants of `Logical` share an identifier. */
  lemma LogicalNameInvertible(x: Logical)
    ensures LogicalFromName(LogicalName(x)) == Some(x)
  {}

  /** Bitwise operators. */
  datatype Bitwise = And | Or | Xor | Not | LeftShift | RightShift

  function BitwiseSign(x: Bitwise): string {
    match x
    case And => "&"
    case Or => "|"
    case Xor => "^"
    case Not => "~"
    case LeftShift => "<<"
    case RightShift => ">>"
  }

  // The identifiers of `BitwiseName` are spelt in the macro's alphabet.
  lemma BitwiseNameAlphabet()
    ensures DelimMacro.IsMacroName("AND")
    ensures DelimMacro.IsMacroName("OR")
    ensures DelimMacro.IsMacroName("XOR")
    ensures DelimMacro.IsMacroName("NOT")
    ensures DelimMacro.IsMacroName("LEFT_SHIFT")
    ensures DelimMacro.IsMacroName("RIGHT_SHIFT")
  {}

  function BitwiseName(x: Bitwise): (r: string)
    ensures DelimMacro.IsMacroName(r)
  {
    BitwiseNameAlphabet();
    match x
    case And => "AND"
    case Or => "OR"
    case Xor => "XOR"
    case Not => "NOT"
    case LeftShift => "LEFT_SHIFT"
    case RightShift => "RIGHT_SHIFT"
  }

  function BitwiseFromSign(sign: string): (r: Option<Bitwise>)
    ensures r.Some? ==> BitwiseSign(r.value) == sign
  {
    if sign == "&" then Some(Bitwise.And)
    else if sign == "|" then Some(Bitwise.Or)
    else if sign == "^" then Some(Bitwise.Xor)
    else if sign == "~" then Some(Bitwise.Not)
    else if sign == "<<" then Some(Bitwise.LeftShift)
    else if sign == ">>" then Some(Bitwise.RightShift)
    else None
  }

  function BitwiseFromName(name: string): Option<Bitwise> {
    if name == "AND" then Some(Bitwise.And)
    else if name == "OR" then Some(Bitwise.Or)
    else if name == "XOR" then Some(Bitwise.Xor)
    else if name == "NOT" then Some(Bitwise.Not)
    else if name == "LEFT_SHIFT" then Some(Bitwise.LeftShift)
    else if name == "RIGHT_SHIFT" then Some(Bitwise.RightShift)
    else None
  }

  /** The sign table of `Bitwise` is invertible: no two variants share a sign. */
  lemma BitwiseSignInvertible(x: Bitwise)
    ensures BitwiseFromSign(BitwiseSign(x)) == Some(x)
  {}

  /** No two variants of `Bitwise` share an identifier. */
  lemma BitwiseNameInvertible(x: Bitwise)
    ensures BitwiseFromName(BitwiseName(x)) == Some(x)
  {}

  datatype Operator =
    | Assignment(assignment: Assignment)
    | Comparison(comparison: Comparison)
    | Arithmetic(arithmetic: Arithmetic)
    | Bitwise(bitwise: Bitwise)
    | Logical(logical: Logical)

  /** The sign of the inner operator. */
  function Sign(op: Operator): (r: string)
    ensures 1 <= |r| <= 3
    ensures forall i :: 0 <= i < |r| ==> r[i] in "=+-*/%<>&|^!~"
  {
    match op
    case Assignment(x) => AssignmentSign(x)
    case Comparison(x) => ComparisonSign(x)
    case Arithmetic(x) => ArithmeticSign(x)
    case Bitwise(x) => BitwiseSign(x)
    case Logical(x) => LogicalSign(x)
  }

  /** The identifier of the inner variant. */
  function Name(op: Operator): (r: string)
    ensures DelimMacro.IsMacroName(r)
  {
    match op
    case Assignment(x) => AssignmentName(x)
    case Comparison(x) => ComparisonName(x)
    case Arithmetic(x) => ArithmeticName(x)
    case Bitwise(x) => BitwiseName(x)
    case Logical(x) => LogicalName(x)
  }

  /** `Display for Operator`: the inner enumeration's display. */
  function Display(op: Operator): (r: string)
    ensures |r| == |Name(op)| && 0 < |r|
    ensures forall i :: 0 <= i < |r| ==> Text.IsAsciiLower(r[i]) || r[i] == '-'
  {
    DelimMacro.Display(Name(op))
  }

  /** The operator whose sign is `sign`, looking in each enumeration in turn. */
  function FromSign(sign: string): (r: Option<Operator>)
    ensures r.Some? ==> Sign(r.value) == sign
  {
    match AssignmentFromSign(sign)
    case Some(x) => Some(Assignment(x))
    case None =>
    match ComparisonFromSign(sign)
    case Some(x) => Some(Comparison(x))
    case None =>
    match ArithmeticFromSign(sign)
    case Some(x) => Some(Arithmetic(x))
    case None =>
    match BitwiseFromSign(sign)
    case Some(x) => Some(Bitwise(x))
    case None =>
    match LogicalFromSign(sign)
    case Some(x) => Some(Logical(x))
    case None => None
  }

  // ---------------------------------------------------------------------
  // Properties of the `Operator` sum
  // ---------------------------------------------------------------------

  /** Signs of later enumerations are not found in earlier ones, so the
      cascade in `FromSign` cannot stop at the wrong enumeration. */
  lemma ComparisonSignIsNotAssignment(x: Comparison)
    ensures AssignmentFromSign(ComparisonSign(x)).None?
  {}

  lemma ArithmeticSignIsNotEarlier(x: Arithmetic)
    ensures AssignmentFromSign(ArithmeticSign(x)).None?
    ensures ComparisonFromSign(ArithmeticSign(x)).None?
  {}

  lemma BitwiseSignIsNotEarlier(x: Bitwise)
    ensures AssignmentFromSign(BitwiseSign(x)).None?
    ensures ComparisonFromSign(BitwiseSign(x)).None?
    ensures ArithmeticFromSign(BitwiseSign(x)).None?
  {}

  lemma LogicalSignIsNotEarlier(x: Logical)
    ensures AssignmentFromSign(LogicalSign(x)).None?
    ensures ComparisonFromSign(LogicalSign(x)).None?
    ensures ArithmeticFromSign(LogicalSign(x)).None?
    ensures BitwiseFromSign(LogicalSign(x)).None?
  {}

  /** Every operator is recovered from its sign: the 35 signs of the five
      enumerations are pairwise distinct. */
  lemma SignRoundTrip(op: Operator)
    ensures FromSign(Sign(op)) == Some(op)
  {
    match op
    case Assignment(x) => AssignmentSignInvertible(x);
    case Comparison(x) => ComparisonSignInvertible(x); ComparisonSignIsNotAssignment(x);
    case Arithmetic(x) => ArithmeticSignInvertible(x); ArithmeticSignIsNotEarlier(x);
    case Bitwise(x) => BitwiseSignInvertible(x); BitwiseSignIsNotEarlier(x);
    case Logical(x) => LogicalSignInvertible(x); LogicalSignIsNotEarlier(x);
  }

  lemma SignsDistinct(a: Operator, b: Operator)
    ensures Sign(a) == Sign(b) <==> a == b
  {
    SignRoundTrip(a);
    SignRoundTrip(b);
  }

  /** Both operands come from the same enumeration. */
  predicate SameCategory(a: Operator, b: Operator) {
    || (a.Assignment? && b.Assignment?)
    || (a.Comparison? && b.Comparison?)
    || (a.Arithmetic? && b.Arithmetic?)
    || (a.Bitwise? && b.Bitwise?)
    || (a.Logical? && b.Logical?)
  }

  /** Within one enumeration the display tells operators apart. */
  lemma DisplayDistinctWithinCategory(a: Operator, b: Operator)
    requires SameCategory(a, b)
    ensures Display(a) == Display(b) <==> a == b
  {
    if Display(a) == Display(b) {
      DelimMacro.DisplayInjective(Name(a), Name(b));
      match a
      case Assignment(x) => AssignmentNameInvertible(x); AssignmentNameInvertible(b.assignment);
      case Comparison(x) => ComparisonNameInvertible(x); ComparisonNameInvertible(b.comparison);
      case Arithmetic(x) => ArithmeticNameInvertible(x); ArithmeticNameInvertible(b.arithmetic);
      case Bitwise(x) => BitwiseNameInvertible(x); BitwiseNameInvertible(b.bitwise);
      case Logical(x) => LogicalNameInvertible(x); LogicalNameInvertible(b.logical);
    }
  }

  /** Across enumerations it does not: `=` and `==` both print "equal", and
      `+=` and `+` both print "addition". */
  lemma DisplayNotInjectiveAcrossCategories()
    ensures Display(Assignment(Assignment.Equal)) == "equal" == Display(Comparison(Comparison.Equal))
    ensures Assignment(Assignment.Equal) != Comparison(Comparison.Equal)
    ensures Display(Assignment(Assignment.Addition)) == Display(Arithmetic(Arithmetic.Addition))
    ensures Sign(Assignment(Assignment.Addition)) == "+=" && Sign(Arithmetic(Arithmetic.Addition)) == "+"
  {}

  lemma DisplayExamples()
    ensures Display(Comparison(Comparison.GreaterThanOrEqual)) == "greater-than-or-equal"
  {}

  lemma ShiftDisplayExample()
    ensures Display(Assignment(Assignment.LeftShift)) == "left-shift"
  {}

  lemma SignExamples()
    ensures Sign(Assignment(Assignment.LeftShift)) == "<<="
    ensures Sign(Arithmetic(Arithmetic.Exponentiation)) == "^^"
    ensures Sign(Bitwise(Bitwise.Not)) == "~"
  {}
}
