/** What a comment scanner produces: the comment's text, its kind and where
    it starts. The kind is parsed case-insensitively from "LINE" or "BLOCK"
    and printed in upper case. */
module Comments {
  import opened Wrappers
  import Text
  import Locations

  /** `CommentType`. A line comment runs to the end of the line; a block
      comment has an opening and a closing marker. */
  datatype CommentType = Line | Block

  /** `from_str`'s error, a fixed message asking for "LINE" or "BLOCK". */
  datatype CommentTypeParseError = ExpectedLineOrBlock

  /** `CommentOutput`. */
  datatype CommentOutput = CommentOutput(data: string, ty: CommentType, location: Locations.Location)

  /** The derived `Default`: the variant marked `#[default]`. */
  function Default(): (t: CommentType)
    ensures t.Block?
  {
    Block
  }

  /** `define(ty)`: the kind becomes `ty`, whatever it was. */
  function Define(current: CommentType, ty: CommentType): (r: CommentType)
    ensures r == ty
  {
    ty
  }

  /** `Display`. */
  function Display(t: CommentType): (r: string)
    ensures forall i :: 0 <= i < |r| ==> Text.IsAsciiUpper(r[i])
  {
    match t
    case Line => "LINE"
    case Block => "BLOCK"
  }

  /** `from_str`: the input is upper-cased, then compared with the two names. */
  function FromStr(input: string): (r: Result<CommentType, CommentTypeParseError>)
    ensures r.Ok? ==> Text.AsciiUpper(input) == Display(r.value)
  {
    var upper := Text.AsciiUpper(input);
    if upper == "LINE" then Ok(Line)
    else if upper == "BLOCK" then Ok(Block)
    else Err(ExpectedLineOrBlock)
  }

  // ---------------------------------------------------------------------
  // Properties
  // ---------------------------------------------------------------------

  /** Parsing accepts exactly the two names written in any mix of ASCII
      cases, and rejects everything else. */
  lemma FromStrIgnoresCase(input: string)
    ensures FromStr(input) == Ok(Line) <==> Text.EqIgnoringAsciiCase(input, "LINE")
    ensures FromStr(input) == Ok(Block) <==> Text.EqIgnoringAsciiCase(input, "BLOCK")
    ensures FromStr(input).Err? <==>
      !Text.EqIgnoringAsciiCase(input, "LINE") && !Text.EqIgnoringAsciiCase(input, "BLOCK")
  {
    Text.AsciiUpperMatchesIgnoringCase(input, "LINE");
    Text.AsciiUpperMatchesIgnoringCase(input, "BLOCK");
  }

  /** Printing then parsing gives back the kind. */
  lemma DisplayRoundTrip(t: CommentType)
    ensures FromStr(Display(t)) == Ok(t)
  {
    var d := Display(t);
    assert Text.AsciiUpper(d) == d;
  }

  /** Lower-case and capitalised spellings parse; near misses do not. */
  lemma FromStrExamples()
    ensures FromStr("line") == Ok(Line) && FromStr("Line") == Ok(Line)
    ensures FromStr("block") == Ok(Block)
    ensures FromStr("lines").Err?
    ensures FromStr("").Err?
  {
    assert Text.AsciiUpper("line") == "LINE";
    assert Text.AsciiUpper("Line") == "LINE";
    assert Text.AsciiUpper("block") == "BLOCK";
    assert |Text.AsciiUpper("lines")| == 5 && Text.AsciiUpper("lines")[0] == 'L';
    assert Text.AsciiUpper("") == "";
  }

  /** `define` keeps only the last kind given. */
  lemma DefineLastWins(t: CommentType, a: CommentType, b: CommentType)
    ensures Define(Define(t, a), b) == Define(t, b)
    ensures Define(Define(t, a), a) == Define(t, a)
  {}
}
