/** The `Keyword` enumeration generated by the `Kword!` macro: twenty-seven
    reserved words, some with several accepted spellings. Parsing is an exact,
    case-sensitive match against the spellings, tried in declaration order;
    printing is the variant identifier in ASCII lower case. */
module Keywords {
  import opened Wrappers
  import Text

  datatype Keyword =
    | Async | Await | Function | Let | Mut | Const | Loop | For | In | While | Break
    | Continue | If | Else | Match | Yield | Return | Struct | Enum | Interface
    | Namespace | Impl | Export | Type | As | From | Import

  /** `KeywordParseError::Unknown`: the unmatched input, unchanged. */
  datatype KeywordParseError = Unknown(found: string)

  /** The variant identifier as declared. */
  function Name(k: Keyword): string {
    match k
    case Async => "Async"
    case Await => "Await"
    case Function => "Function"
    case Let => "Let"
    case Mut => "Mut"
    case Const => "Const"
    case Loop => "Loop"
    case For => "For"
    case In => "In"
    case While => "While"
    case Break => "Break"
    case Continue => "Continue"
    case If => "If"
    case Else => "Else"
    case Match => "Match"
    case Yield => "Yield"
    case Return => "Return"
    case Struct => "Struct"
    case Enum => "Enum"
    case Interface => "Interface"
    case Namespace => "Namespace"
    case Impl => "Impl"
    case Export => "Export"
    case Type => "Type"
    case As => "As"
    case From => "From"
    case Import => "Import"
  }

  /** The spellings the declaration lists for a keyword, in order. */
  function Spellings(k: Keyword): seq<string> {
    match k
    case Async => ["async"]
    case Await => ["await"]
    case Function => ["fn", "func", "function"]
    case Let => ["let"]
    case Mut => ["mut"]
    case Const => ["const"]
    case Loop => ["loop"]
    case For => ["for"]
    case In => ["in"]
    case While => ["while"]
    case Break => ["break"]
    case Continue => ["continue"]
    case If => ["if"]
    case Else => ["else"]
    case Match => ["match"]
    case Yield => ["yield"]
    case Return => ["return"]
    case Struct => ["struct"]
    case Enum => ["enum"]
    case Interface => ["interface"]
    case Namespace => ["mod", "namespace"]
    case Impl => ["impl"]
    case Export => ["export"]
    case Type => ["type"]
    case As => ["as"]
    case From => ["from"]
    case Import => ["import", "use"]
  }

  // The declaration is read in its source groups, in order; each group
  // answers with the first of its keywords that lists the input.

  /** The match arms for the asynchronous and function words. */
  function FromFunctionWords(input: string): Option<Keyword> {
    if input == "async" then Some(Async)
    else if input == "await" then Some(Await)
    else if input == "fn" || input == "func" || input == "function" then Some(Function)
    else None
  }

  lemma FromFunctionWordsSound(input: string)
    ensures FromFunctionWords(input).Some? ==> input in Spellings(FromFunctionWords(input).value)
  {}

  /** The match arms for the binding words. */
  function FromBindingWords(input: string): Option<Keyword> {
    if input == "let" then Some(Let)
    else if input == "mut" then Some(Mut)
    else if input == "const" then Some(Const)
    else None
  }

  lemma FromBindingWordsSound(input: string)
    ensures FromBindingWords(input).Some? ==> input in Spellings(FromBindingWords(input).value)
  {}

  /** The match arms for the control-flow words. */
  function FromControlWords(input: string): Option<Keyword> {
    if input == "loop" then Some(Loop)
    else if input == "for" then Some(For)
    else if input == "in" then Some(In)
    else if input == "while" then Some(While)
    else if input == "break" then Some(Break)
    else if input == "continue" then Some(Continue)
    else if input == "if" then Some(If)
    else if input == "else" then Some(Else)
    else if input == "match" then Some(Match)
    else None
  }

  lemma FromControlWordsSound(input: string)
    ensures FromControlWords(input).Some? ==> input in Spellings(FromControlWords(input).value)
  {}

  /** The match arms for the yield and return words. */
  function FromGeneratorWords(input: string): Option<Keyword> {
    if input == "yield" then Some(Yield)
    else if input == "return" then Some(Return)
    else None
  }

  lemma FromGeneratorWordsSound(input: string)
    ensures FromGeneratorWords(input).Some? ==> input in Spellings(FromGeneratorWords(input).value)
  {}

  /** The match arms for the type-definition words. */
  function FromTypeWords(input: string): Option<Keyword> {
    if input == "struct" then Some(Struct)
    else if input == "enum" then Some(Enum)
    else if input == "interface" then Some(Interface)
    else None
  }

  lemma FromTypeWordsSound(input: string)
    ensures FromTypeWords(input).Some? ==> input in Spellings(FromTypeWords(input).value)
  {}

  /** The match arms for the module and implementation words. */
  function FromModuleWords(input: string): Option<Keyword> {
    if input == "mod" || input == "namespace" then Some(Namespace)
    else if input == "impl" then Some(Impl)
    else None
  }

  lemma FromModuleWordsSound(input: string)
    ensures FromModuleWords(input).Some? ==> input in Spellings(FromModuleWords(input).value)
  {}

  /** The match arms for the export, alias and import words. */
  function FromItemWords(input: string): Option<Keyword> {
    if input == "export" then Some(Export)
    else if input == "type" then Some(Type)
    else if input == "as" then Some(As)
    else if input == "from" then Some(From)
    else if input == "import" || input == "use" then Some(Import)
    else None
  }

  lemma FromItemWordsSound(input: string)
    ensures FromItemWords(input).Some? ==> input in Spellings(FromItemWords(input).value)
  {}

  /** All match arms, in declaration order. */
  function Lookup(input: string): (r: Option<Keyword>)
    ensures r.Some? ==> input in Spellings(r.value)
  {
    FromFunctionWordsSound(input);
    FromBindingWordsSound(input);
    FromControlWordsSound(input);
    FromGeneratorWordsSound(input);
    FromTypeWordsSound(input);
    FromModuleWordsSound(input);
    FromItemWordsSound(input);
    if FromFunctionWords(input).Some? then FromFunctionWords(input)
    else if FromBindingWords(input).Some? then FromBindingWords(input)
    else if FromControlWords(input).Some? then FromControlWords(input)
    else if FromGeneratorWords(input).Some? then FromGeneratorWords(input)
    else if FromTypeWords(input).Some? then FromTypeWords(input)
    else if FromModuleWords(input).Some? then FromModuleWords(input)
    else if FromItemWords(input).Some? then FromItemWords(input)
    else None
  }

  /** `from_str`: the first declared keyword listing `input` among its
      spellings; otherwise `Unknown` carrying the input. */
  function FromStr(input: string): (r: Result<Keyword, KeywordParseError>)
    ensures r.Ok? ==> input in Spellings(r.value)
    ensures r.Err? ==> r.error == Unknown(input)
  {
    var found := Lookup(input);
    if found.Some? then Ok(found.value) else Err(Unknown(input))
  }

  /** `Display`: the variant identifier, ASCII lower-cased. */
  function Display(k: Keyword): (r: string)
    ensures |r| == |Name(k)|
    ensures forall i :: 0 <= i < |r| ==> !Text.IsAsciiUpper(r[i])
  {
    Text.AsciiLower(Name(k))
  }

  // ---------------------------------------------------------------------
  // Each spelling parses to its keyword: one lemma per declaration line
  // ---------------------------------------------------------------------

  lemma AsyncParses()
    ensures FromStr("async") == Ok(Async)
  {}

  lemma AwaitParses()
    ensures FromStr("await") == Ok(Await)
  {}

  lemma FunctionParses()
    ensures FromStr("fn") == Ok(Function)
    ensures FromStr("func") == Ok(Function)
    ensures FromStr("function") == Ok(Function)
  {}

  lemma LetParses()
    ensures FromStr("let") == Ok(Let)
  {}

  lemma MutParses()
    ensures FromStr("mut") == Ok(Mut)
  {}

  lemma ConstParses()
    ensures FromStr("const") == Ok(Const)
  {}

  lemma LoopParses()
    ensures FromStr("loop") == Ok(Loop)
  {}

  lemma ForParses()
    ensures FromStr("for") == Ok(For)
  {}

  lemma InParses()
    ensures FromStr("in") == Ok(In)
  {}

  lemma WhileParses()
    ensures FromStr("while") == Ok(While)
  {}

  lemma BreakParses()
    ensures FromStr("break") == Ok(Break)
  {}

  lemma ContinueParses()
    ensures FromStr("continue") == Ok(Continue)
  {}

  lemma IfParses()
    ensures FromStr("if") == Ok(If)
  {}

  lemma ElseParses()
    ensures FromStr("else") == Ok(Else)
  {}

  lemma MatchParses()
    ensures FromStr("match") == Ok(Match)
  {}

  lemma YieldParses()
    ensures FromStr("yield") == Ok(Yield)
  {}

  lemma ReturnParses()
    ensures FromStr("return") == Ok(Return)
  {}

  lemma StructParses()
    ensures FromStr("struct") == Ok(Struct)
  {}

  lemma EnumParses()
    ensures FromStr("enum") == Ok(Enum)
  {}

  lemma InterfaceParses()
    ensures FromStr("interface") == Ok(Interface)
  {}

  lemma NamespaceParses()
    ensures FromStr("mod") == Ok(Namespace)
    ensures FromStr("namespace") == Ok(Namespace)
  {}

  lemma ImplParses()
    ensures FromStr("impl") == Ok(Impl)
  {}

  lemma ExportParses()
    ensures FromStr("export") == Ok(Export)
  {}

  lemma TypeParses()
    ensures FromStr("type") == Ok(Type)
  {}

  lemma AsParses()
    ensures FromStr("as") == Ok(As)
  {}

  lemma FromParses()
    ensures FromStr("from") == Ok(From)
  {}

  lemma ImportParses()
    ensures FromStr("import") == Ok(Import)
    ensures FromStr("use") == Ok(Import)
  {}

  /** Every listed spelling parses to the keyword that lists it. */
  lemma SpellingParses(k: Keyword, s: string)
    requires s in Spellings(k)
    ensures FromStr(s) == Ok(k)
  {
    match k
    case Async => AsyncParses();
    case Await => AwaitParses();
    case Function => FunctionParses();
    case Let => LetParses();
    case Mut => MutParses();
    case Const => ConstParses();
    case Loop => LoopParses();
    case For => ForParses();
    case In => InParses();
    case While => WhileParses();
    case Break => BreakParses();
    case Continue => ContinueParses();
    case If => IfParses();
    case Else => ElseParses();
    case Match => MatchParses();
    case Yield => YieldParses();
    case Return => ReturnParses();
    case Struct => StructParses();
    case Enum => EnumParses();
    case Interface => InterfaceParses();
    case Namespace => NamespaceParses();
    case Impl => ImplParses();
    case Export => ExportParses();
    case Type => TypeParses();
    case As => AsParses();
    case From => FromParses();
    case Import => ImportParses();
  }

  /** Parsing succeeds exactly on the listed spellings, and then yields the
      keyword listing the input. */
  lemma FromStrExact(s: string, k: Keyword)
    ensures FromStr(s) == Ok(k) <==> s in Spellings(k)
  {
    if s in Spellings(k) {
      SpellingParses(k, s);
    }
  }

  /** No word is a spelling of two keywords, so parsing is a function of the
      word and the declaration order does not matter. */
  lemma SpellingsDisjoint(a: Keyword, b: Keyword, s: string)
    requires s in Spellings(a) && s in Spellings(b)
    ensures a == b
  {
    SpellingParses(a, s);
    SpellingParses(b, s);
  }

  /** Parsing yields `Unknown` exactly on the words no keyword lists, and
      the error carries the input unchanged. */
  lemma UnknownIffUnlisted(s: string)
    ensures FromStr(s).Err? <==> forall k: Keyword :: s !in Spellings(k)
    ensures FromStr(s).Err? ==> FromStr(s).error.found == s
  {
    if FromStr(s).Ok? {
      assert s in Spellings(FromStr(s).value);
    } else {
      forall k: Keyword ensures s !in Spellings(k) {
        if s in Spellings(k) {
          SpellingParses(k, s);
        }
      }
    }
  }

  /** Words the declaration does not list are rejected. */
  lemma PubIsUnknown()
    ensures FromStr("pub") == Err(Unknown("pub"))
  {}

  lemma TrueIsUnknown()
    ensures FromStr("true") == Err(Unknown("true"))
  {}

  lemma FalseIsUnknown()
    ensures FromStr("false") == Err(Unknown("false"))
  {}

  /** Matching is case-sensitive. */
  lemma CapitalisedIsUnknown()
    ensures FromStr("Function") == Err(Unknown("Function"))
  {}

  // ---------------------------------------------------------------------
  // The printed name is always a spelling of the keyword
  // ---------------------------------------------------------------------

  lemma AsyncDisplays()
    ensures Display(Async) == "async"
  {}

  lemma AwaitDisplays()
    ensures Display(Await) == "await"
  {}

  lemma FunctionDisplays()
    ensures Display(Function) == "function"
  {}

  lemma LetDisplays()
    ensures Display(Let) == "let"
  {}

  lemma MutDisplays()
    ensures Display(Mut) == "mut"
  {}

  lemma ConstDisplays()
    ensures Display(Const) == "const"
  {}

  lemma LoopDisplays()
    ensures Display(Loop) == "loop"
  {}

  lemma ForDisplays()
    ensures Display(For) == "for"
  {}

  lemma InDisplays()
    ensures Display(In) == "in"
  {}

  lemma WhileDisplays()
    ensures Display(While) == "while"
  {}

  lemma BreakDisplays()
    ensures Display(Break) == "break"
  {}

  lemma ContinueDisplays()
    ensures Display(Continue) == "continue"
  {}

  lemma IfDisplays()
    ensures Display(If) == "if"
  {}

  lemma ElseDisplays()
    ensures Display(Else) == "else"
  {}

  lemma MatchDisplays()
    ensures Display(Match) == "match"
  {}

  lemma YieldDisplays()
    ensures Display(Yield) == "yield"
  {}

  lemma ReturnDisplays()
    ensures Display(Return) == "return"
  {}

  lemma StructDisplays()
    ensures Display(Struct) == "struct"
  {}

  lemma EnumDisplays()
    ensures Display(Enum) == "enum"
  {}

  lemma InterfaceDisplays()
    ensures Display(Interface) == "interface"
  {}

  lemma NamespaceDisplays()
    ensures Display(Namespace) == "namespace"
  {}

  lemma ImplDisplays()
    ensures Display(Impl) == "impl"
  {}

  lemma ExportDisplays()
    ensures Display(Export) == "export"
  {}

  lemma TypeDisplays()
    ensures Display(Type) == "type"
  {}

  lemma AsDisplays()
    ensures Display(As) == "as"
  {}

  lemma FromDisplays()
    ensures Display(From) == "from"
  {}

  lemma ImportDisplays()
    ensures Display(Import) == "import"
  {}

  /** Printing then parsing gives back the keyword: the printed name is
      always one of the keyword's spellings. */
  lemma DisplayRoundTrip(k: Keyword)
    ensures Display(k) in Spellings(k)
    ensures FromStr(Display(k)) == Ok(k)
  {
    match k
    case Async => AsyncDisplays(); AsyncParses();
    case Await => AwaitDisplays(); AwaitParses();
    case Function => FunctionDisplays(); FunctionParses();
    case Let => LetDisplays(); LetParses();
    case Mut => MutDisplays(); MutParses();
    case Const => ConstDisplays(); ConstParses();
    case Loop => LoopDisplays(); LoopParses();
    case For => ForDisplays(); ForParses();
    case In => InDisplays(); InParses();
    case While => WhileDisplays(); WhileParses();
    case Break => BreakDisplays(); BreakParses();
    case Continue => ContinueDisplays(); ContinueParses();
    case If => IfDisplays(); IfParses();
    case Else => ElseDisplays(); ElseParses();
    case Match => MatchDisplays(); MatchParses();
    case Yield => YieldDisplays(); YieldParses();
    case Return => ReturnDisplays(); ReturnParses();
    case Struct => StructDisplays(); StructParses();
    case Enum => EnumDisplays(); EnumParses();
    case Interface => InterfaceDisplays(); InterfaceParses();
    case Namespace => NamespaceDisplays(); NamespaceParses();
    case Impl => ImplDisplays(); ImplParses();
    case Export => ExportDisplays(); ExportParses();
    case Type => TypeDisplays(); TypeParses();
    case As => AsDisplays(); AsParses();
    case From => FromDisplays(); FromParses();
    case Import => ImportDisplays(); ImportParses();
  }

  /** Distinct keywords print differently. */
  lemma DisplayInjective(a: Keyword, b: Keyword)
    ensures Display(a) == Display(b) <==> a == b
  {
    DisplayRoundTrip(a);
    DisplayRoundTrip(b);
  }
}
