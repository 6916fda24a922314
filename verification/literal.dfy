/** What the literal scanners produce: booleans, strings with their
    location, and integers tagged with their radix. */
module Literals {
  import Locations

  // ---------------------------------------------------------------------
  // Booleans
  // ---------------------------------------------------------------------

  datatype Bool = True | False

  /** `BoolOutput`. */
  datatype BoolOutput = BoolOutput(value: Bool, location: Locations.Location)

  /** `From<bool> for Bool`. */
  function FromBool(b: bool): (r: Bool)
    ensures r.True? <==> b
  {
    if b then True else False
  }

  /** `From<Bool> for bool`. */
  function ToBool(v: Bool): (r: bool)
    ensures r <==> v == True
  {
    match v
    case True => true
    case False => false
  }

  /** `Display`. */
  function DisplayBool(v: Bool): (r: string)
    ensures r == "true" || r == "false"
  {
    match v
    case True => "true"
    case False => "false"
  }

  /** The two conversions are inverse to each other. */
  lemma BoolRoundTrips(b: bool, v: Bool)
    ensures ToBool(FromBool(b)) == b
    ensures FromBool(ToBool(v)) == v
  {}

  /** A boolean prints as "true" exactly when it is true, and as "false" otherwise. */
  lemma DisplayBoolTrueIff(b: bool)
    ensures DisplayBool(FromBool(b)) == "true" <==> b
    ensures DisplayBool(FromBool(b)) == "false" <==> !b
  {}

  // ---------------------------------------------------------------------
  // Strings
  // ---------------------------------------------------------------------

  /** `StringOutput`: the characters read so far, without the quotes, and a
      location whose column advances with every character. */
  datatype StringOutput = StringOutput(data: string, location: Locations.Location)

  /** The derived `Default`: no characters, the default location. */
  function DefaultString(): (o: StringOutput)
    ensures o.data == [] && o.location == Locations.New()
  {
    StringOutput([], Locations.New())
  }

  /** `append(ch)`: pushes `ch`, then increments the column. */
  function Append(o: StringOutput, ch: char): (r: StringOutput)
    ensures r.data == o.data + [ch]
    ensures r.location == Locations.IncrementColumn(o.location)
  {
    StringOutput(o.data + [ch], Locations.IncrementColumn(o.location))
  }

  /** `Deref`: the output reads as its characters. */
  function Deref(o: StringOutput): (r: string)
    ensures |r| == |o.data|
    ensures forall i :: 0 <= i < |r| ==> r[i] == o.data[i]
  {
    o.data
  }

  /** Appends the characters of `s` one by one, left to right. */
  function AppendAll(o: StringOutput, s: string): StringOutput
    decreases |s|
  {
    if s == [] then o else Append(AppendAll(o, s[..|s| - 1]), s[|s| - 1])
  }

  /** Appending a string character by character extends the data by that
      string and moves the column right by its length, saturating at the
      maximum `usize`; line and total never move. */
  lemma {:induction false} AppendAllExtends(o: StringOutput, s: string)
    ensures AppendAll(o, s).data == o.data + s
    ensures AppendAll(o, s).location.column ==
      if o.location.column + |s| <= Locations.USIZE_MAX then o.location.column + |s| else Locations.USIZE_MAX
    ensures AppendAll(o, s).location.line == o.location.line
    ensures AppendAll(o, s).location.total == o.location.total
    decreases |s|
  {
    if s != [] {
      var init := s[..|s| - 1];
      AppendAllExtends(o, init);
      assert init + [s[|s| - 1]] == s;
    }
  }

  /** From the default output, appending `s` gives exactly `s`, at column
      `1 + |s|` (saturating), still on line 1. */
  lemma AppendAllFromDefault(s: string)
    ensures Deref(AppendAll(DefaultString(), s)) == s
    ensures AppendAll(DefaultString(), s).location.column ==
      if 1 + |s| <= Locations.USIZE_MAX then 1 + |s| else Locations.USIZE_MAX
    ensures AppendAll(DefaultString(), s).location.line == 1
  {
    var d := DefaultString();
    AppendAllExtends(d, s);
    assert d.data + s == s;
    assert d.location.column == 1 && d.location.line == 1;
  }

  // ---------------------------------------------------------------------
  // Integers
  // ---------------------------------------------------------------------

  /** `Integer`: the digits as read, tagged with their radix (the source names
      the decimal field `int`, a reserved word here). */
  datatype Integer =
    | Decimal(digits: string)
    | Hexadecimal(hex: string)
    | Binary(bin: string)
    | Octal(oct: string)

  /** The radix name used by `Display`. */
  function RadixName(n: Integer): string {
    match n
    case Decimal(_) => "decimal"
    case Hexadecimal(_) => "hexadecimal"
    case Binary(_) => "binary"
    case Octal(_) => "octal"
  }

  /** Two integers with the same radix, whatever their digits. */
  predicate SameRadix(a: Integer, b: Integer) {
    (a.Decimal? && b.Decimal?) || (a.Hexadecimal? && b.Hexadecimal?)
    || (a.Binary? && b.Binary?) || (a.Octal? && b.Octal?)
  }

  /** `Display`: `numeric-` followed by the radix name; the digits are not printed. */
  function DisplayInteger(n: Integer): (r: string)
    ensures |r| > 8 && r[..8] == "numeric-"
  {
    "numeric-" + RadixName(n)
  }

  /** The printed form determines the radix and nothing else: it is equal for
      two integers exactly when they have the same radix. */
  lemma DisplayIntegerExactlyRadix(a: Integer, b: Integer)
    ensures DisplayInteger(a) == DisplayInteger(b) <==> SameRadix(a, b)
  {
    if DisplayInteger(a) == DisplayInteger(b) {
      assert DisplayInteger(a)[8..] == RadixName(a);
      assert DisplayInteger(b)[8..] == RadixName(b);
    }
  }

  lemma DisplayIntegerExamples()
    ensures DisplayInteger(Decimal("71")) == "numeric-decimal"
    ensures DisplayInteger(Hexadecimal("0x2A")) == "numeric-hexadecimal"
    ensures DisplayInteger(Binary("0b10000000000")) == "numeric-binary"
    ensures DisplayInteger(Octal("0o2000")) == "numeric-octal"
  {}
}
