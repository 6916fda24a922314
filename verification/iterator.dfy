/** The vocabulary shared by the streams: the end-of-stream error, and the
    "end of file" and "ignore" kinds an item can have. For code points the
    kind of an item is the item itself. */
module StreamIterators {
  import opened CodePoints

  /** The input stream's only error: the end of the stream. */
  datatype InputStreamError = Eos

  /** `StreamIteratorError::eos` for the input stream. */
  function InputEos(): InputStreamError { Eos }

  /** `is_eos`: the error equals `eos()`. */
  function IsEos(e: InputStreamError): (r: bool)
    ensures r <==> e == InputEos()
  {
    match e
    case Eos => true
  }

  /** `kind` for code points: an item is its own kind. */
  function Kind(cp: CodePoint): CodePoint { cp }

  /** `eof()` and `ignore()` for code points. */
  function EofKind(): CodePoint { Eof }

  function IgnoreKind(): CodePoint { Ignore }

  /** `is_eof`: the item's kind equals `eof()`. */
  function IsEof(cp: CodePoint): (r: bool)
    ensures r <==> Kind(cp) == EofKind()
  {
    cp.Eof?
  }

  /** `is_ignored`: the item's kind equals `ignore()`. */
  function IsIgnored(cp: CodePoint): (r: bool)
    ensures r <==> Kind(cp) == IgnoreKind()
  {
    cp.Ignore?
  }

  /** The only error value is the end of the stream, and exactly one code point
      is end-of-file and exactly one is ignored; no code point is both. */
  lemma KindsAreExact(cp: CodePoint, e: InputStreamError)
    ensures IsEos(e)
    ensures IsEof(cp) <==> cp == Eof
    ensures IsIgnored(cp) <==> cp == Ignore
    ensures !(IsEof(cp) && IsIgnored(cp))
    ensures IsEof(cp) || IsIgnored(cp) ==> !cp.IsValid()
  {}

  /** A classified unit is never end-of-file and never ignored. */
  lemma ClassifiedIsNeitherEofNorIgnored(u: Unit)
    ensures !IsEof(From(u)) && !IsIgnored(From(u))
  {
    FromPriority(u);
  }
}
