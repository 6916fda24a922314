/** What the `delim!` macro generates for every delimiter enumeration: a
    `sign()` returning the declared literal as a string, and a `Display`
    printing the variant's identifier with `_` replaced by `-`, then ASCII
    lower-cased. The identifier is passed in as a string. */
module DelimMacro {
  import Text

  /** A variant identifier as the delimiter enumerations spell them:
      upper-case ASCII letters and underscores. */
  predicate IsMacroName(name: string) {
    forall i :: 0 <= i < |name| ==> Text.IsAsciiUpper(name[i]) || name[i] == '_'
  }

  /** The generated `Display`. */
  function Display(name: string): (r: string)
    ensures |r| == |name|
    ensures forall i :: 0 <= i < |r| ==> r[i] != '_' && !Text.IsAsciiUpper(r[i])
    ensures forall i :: 0 <= i < |name| && name[i] == '_' ==> r[i] == '-'
    ensures forall i :: 0 <= i < |name| && Text.IsAsciiUpper(name[i]) ==> r[i] as int == name[i] as int + 32
  {
    Text.AsciiLower(Text.ReplaceChar(name, '_', '-'))
  }

  /** On identifiers of the macro's alphabet the display loses nothing:
      distinct identifiers print differently. */
  lemma DisplayInjective(a: string, b: string)
    requires IsMacroName(a) && IsMacroName(b)
    requires Display(a) == Display(b)
    ensures a == b
  {
    assert |a| == |b|;
    forall i | 0 <= i < |a| ensures a[i] == b[i] {
      assert Display(a)[i] == Display(b)[i];
    }
  }
}
