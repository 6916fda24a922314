/** The input stream on "Hello World\n", read as characters and as bytes
    with the standard classifier, and as characters with a classifier that
    ignores the letter `l` (the cases of `input.rs`, lines 186-283). */
module InputStreamExamples {
  import opened Wrappers
  import opened CodePoints
  import opened InputStreams
  import Text
  import opened StreamIterators

  /** With a classifier that ignores nothing, the visible code points are the
      classifications of all units, in order. */
  lemma {:induction false} VisibleWithoutIgnored(f: Unit -> CodePoint, xs: seq<Unit>)
    requires forall i :: 0 <= i < |xs| ==> !f(xs[i]).Ignore?
    ensures Visible(f, xs) == Text.Map(xs, f)
  {
    if xs != [] {
      VisibleWithoutIgnored(f, xs[1..]);
      assert Text.Map(xs, f) == [f(xs[0])] + Text.Map(xs[1..], f);
    }
  }

  /** Draining a stream built by `InputStream::new` reads every unit's
      classification, then `Eof`. */
  lemma DrainNew(units: seq<Unit>)
    ensures Drain(New(units)) == Text.Map(units, From) + [Eof]
  {
    var s := New(units);
    var f := s.filter;
    assert NoUnitReadsAsEof(f, units) && forall i :: 0 <= i < |units| ==> !f(units[i]).Ignore? by {
      forall i | 0 <= i < |units| ensures !f(units[i]).Eof? && !f(units[i]).Ignore? {
        ClassifiedIsNeitherEofNorIgnored(units[i]);
      }
    }
    DrainIsVisible(s);
    VisibleWithoutIgnored(f, units);
    MapSameFunction(units, f, From);
  }

  /** Two functions that agree everywhere map a sequence alike. */
  lemma MapSameFunction<A, B>(xs: seq<A>, f: A -> B, g: A -> B)
    requires forall x :: f(x) == g(x)
    ensures Text.Map(xs, f) == Text.Map(xs, g)
  {}

  function Chars(text: string): seq<Unit> {
    Text.Map(text, CharUnit)
  }

  /** The bytes of an ASCII text, one per character (its UTF-8 encoding). */
  function Bytes(text: string): seq<Unit> {
    seq(|text|, i requires 0 <= i < |text| => ByteUnit(text[i] as int % 0x100))
  }

  /** `xs` holds the units of "Hello World\n", of the given kind, one by one. */
  predicate IsHelloWorld(xs: seq<Unit>, kind: UnitKind) {
    && |xs| == 12
    && xs[0] == RawUnit(kind, 'H' as int) && xs[1] == RawUnit(kind, 'e' as int)
    && xs[2] == RawUnit(kind, 'l' as int) && xs[3] == RawUnit(kind, 'l' as int)
    && xs[4] == RawUnit(kind, 'o' as int) && xs[5] == RawUnit(kind, ' ' as int)
    && xs[6] == RawUnit(kind, 'W' as int) && xs[7] == RawUnit(kind, 'o' as int)
    && xs[8] == RawUnit(kind, 'r' as int) && xs[9] == RawUnit(kind, 'l' as int)
    && xs[10] == RawUnit(kind, 'd' as int) && xs[11] == RawUnit(kind, '\n' as int)
  }

  lemma CharsOfHelloWorld()
    ensures IsHelloWorld(Chars("Hello World\n"), Char)
  {}

  lemma BytesOfHelloWorld()
    ensures IsHelloWorld(Bytes("Hello World\n"), Byte)
  {}

  /** The code points "Hello World\n" reads as, for units of `kind`. */
  function HelloWorld(kind: UnitKind): seq<CodePoint> {
    [Unit(RawUnit(kind, 'H' as int)), Unit(RawUnit(kind, 'e' as int)),
     Unit(RawUnit(kind, 'l' as int)), Unit(RawUnit(kind, 'l' as int)),
     Unit(RawUnit(kind, 'o' as int)),
     Whitespace(RawUnit(kind, ' ' as int)),
     Unit(RawUnit(kind, 'W' as int)), Unit(RawUnit(kind, 'o' as int)),
     Unit(RawUnit(kind, 'r' as int)), Unit(RawUnit(kind, 'l' as int)),
     Unit(RawUnit(kind, 'd' as int)),
     Newline(RawUnit(kind, '\n' as int)),
     Eof]
  }

  /** A letter is no symbol, newline or whitespace: it classifies as a plain unit. */
  lemma LetterIsUnit(u: Unit)
    requires u.IsLetter()
    ensures From(u) == Unit(u)
  {
    assert SymbolFor(AsChar(u)).None?;
  }

  // How the standard classifier reads each character of the text.
  lemma HelloLetters(kind: UnitKind)
    ensures From(RawUnit(kind, 'H' as int)) == Unit(RawUnit(kind, 'H' as int))
    ensures From(RawUnit(kind, 'e' as int)) == Unit(RawUnit(kind, 'e' as int))
    ensures From(RawUnit(kind, 'l' as int)) == Unit(RawUnit(kind, 'l' as int))
    ensures From(RawUnit(kind, 'o' as int)) == Unit(RawUnit(kind, 'o' as int))
  {
    LetterIsUnit(RawUnit(kind, 'H' as int));
    LetterIsUnit(RawUnit(kind, 'e' as int));
    LetterIsUnit(RawUnit(kind, 'l' as int));
    LetterIsUnit(RawUnit(kind, 'o' as int));
  }

  lemma WorldLetters(kind: UnitKind)
    ensures From(RawUnit(kind, 'W' as int)) == Unit(RawUnit(kind, 'W' as int))
    ensures From(RawUnit(kind, 'r' as int)) == Unit(RawUnit(kind, 'r' as int))
    ensures From(RawUnit(kind, 'd' as int)) == Unit(RawUnit(kind, 'd' as int))
  {
    LetterIsUnit(RawUnit(kind, 'W' as int));
    LetterIsUnit(RawUnit(kind, 'r' as int));
    LetterIsUnit(RawUnit(kind, 'd' as int));
  }

  lemma SpaceAndNewline(kind: UnitKind)
    ensures From(RawUnit(kind, ' ' as int)) == Whitespace(RawUnit(kind, ' ' as int))
    ensures From(RawUnit(kind, '\n' as int)) == Newline(RawUnit(kind, '\n' as int))
  {
    FromPriority(RawUnit(kind, ' ' as int));
    FromPriority(RawUnit(kind, '\n' as int));
  }

  lemma HelloWorldOf(xs: seq<Unit>, kind: UnitKind)
    requires IsHelloWorld(xs, kind)
    ensures Text.Map(xs, From) + [Eof] == HelloWorld(kind)
  {
    HelloLetters(kind);
    WorldLetters(kind);
    SpaceAndNewline(kind);
    var r := Text.Map(xs, From);
    assert r[0] == Unit(RawUnit(kind, 'H' as int)) && r[1] == Unit(RawUnit(kind, 'e' as int));
    assert r[2] == Unit(RawUnit(kind, 'l' as int)) && r[3] == Unit(RawUnit(kind, 'l' as int));
    assert r[4] == Unit(RawUnit(kind, 'o' as int)) && r[5] == Whitespace(RawUnit(kind, ' ' as int));
    assert r[6] == Unit(RawUnit(kind, 'W' as int)) && r[7] == Unit(RawUnit(kind, 'o' as int));
    assert r[8] == Unit(RawUnit(kind, 'r' as int)) && r[9] == Unit(RawUnit(kind, 'l' as int));
    assert r[10] == Unit(RawUnit(kind, 'd' as int)) && r[11] == Newline(RawUnit(kind, '\n' as int));
  }

  lemma HelloWorldChars()
    ensures Drain(New(Chars("Hello World\n"))) == HelloWorld(Char)
  {
    CharsOfHelloWorld();
    DrainNew(Chars("Hello World\n"));
    HelloWorldOf(Chars("Hello World\n"), Char);
  }

  lemma HelloWorldBytes()
    ensures Drain(New(Bytes("Hello World\n"))) == HelloWorld(Byte)
  {
    var xs := Bytes("Hello World\n");
    BytesOfHelloWorld();
    DrainNew(xs);
    HelloWorldOf(xs, Byte);
  }

  /** The classifier of the filter case: whitespace as `Whitespace`, the null
      character as `Null`, the letter `l` ignored, anything else a plain unit. */
  function IgnoreEll(u: Unit): (cp: CodePoint)
    ensures cp.Ignore? <==> !u.IsWhitespace() && !u.IsNull() && u.Is('l')
    ensures !cp.Eof?
  {
    if u.IsWhitespace() then Whitespace(u)
    else if u.IsNull() then Null
    else if u.Is('l') then Ignore
    else Unit(u)
  }

  /** "Hello World\n" with every `l` ignored; the newline is plain whitespace here. */
  function HelloWorldWithoutEll(): seq<CodePoint> {
    [Unit(CharUnit('H')), Unit(CharUnit('e')), Unit(CharUnit('o')),
     Whitespace(CharUnit(' ')),
     Unit(CharUnit('W')), Unit(CharUnit('o')), Unit(CharUnit('r')), Unit(CharUnit('d')),
     Whitespace(CharUnit('\n')),
     Eof]
  }

  /** One unit of a suffix of `xs`, unfolded. */
  lemma VisibleAt(f: Unit -> CodePoint, xs: seq<Unit>, k: nat)
    requires k < |xs|
    ensures Visible(f, xs[k..]) == (if f(xs[k]).Ignore? then [] else [f(xs[k])]) + Visible(f, xs[k + 1..])
  {
    assert xs[k..][1..] == xs[k + 1..];
  }

  // How the filter of this case classifies each character of the text.
  lemma EllKeepsLetters()
    ensures IgnoreEll(CharUnit('H')) == Unit(CharUnit('H'))
    ensures IgnoreEll(CharUnit('e')) == Unit(CharUnit('e'))
    ensures IgnoreEll(CharUnit('o')) == Unit(CharUnit('o'))
  {}

  lemma EllKeepsOtherLetters()
    ensures IgnoreEll(CharUnit('W')) == Unit(CharUnit('W'))
    ensures IgnoreEll(CharUnit('r')) == Unit(CharUnit('r'))
    ensures IgnoreEll(CharUnit('d')) == Unit(CharUnit('d'))
  {}

  lemma EllIgnoresEll()
    ensures IgnoreEll(CharUnit('l')) == Ignore
  {}

  lemma EllKeepsSpaces()
    ensures IgnoreEll(CharUnit(' ')) == Whitespace(CharUnit(' '))
    ensures IgnoreEll(CharUnit('\n')) == Whitespace(CharUnit('\n'))
  {}

  lemma VisibleWithoutEllTail(xs: seq<Unit>)
    requires IsHelloWorld(xs, Char)
    ensures Visible(IgnoreEll, xs[6..]) ==
      [Unit(CharUnit('W')), Unit(CharUnit('o')), Unit(CharUnit('r')), Unit(CharUnit('d')), Whitespace(CharUnit('\n'))]
  {
    var f := IgnoreEll;
    EllKeepsLetters();
    EllKeepsOtherLetters();
    EllIgnoresEll();
    EllKeepsSpaces();
    assert xs[12..] == [];
    VisibleAt(f, xs, 11);
    VisibleAt(f, xs, 10);
    VisibleAt(f, xs, 9);
    VisibleAt(f, xs, 8);
    VisibleAt(f, xs, 7);
    VisibleAt(f, xs, 6);
  }

  lemma VisibleWithoutEllHead(xs: seq<Unit>)
    requires IsHelloWorld(xs, Char)
    ensures Visible(IgnoreEll, xs) ==
      [Unit(CharUnit('H')), Unit(CharUnit('e')), Unit(CharUnit('o')), Whitespace(CharUnit(' '))] + Visible(IgnoreEll, xs[6..])
  {
    var f := IgnoreEll;
    var rest := Visible(f, xs[6..]);
    EllKeepsLetters();
    EllIgnoresEll();
    EllKeepsSpaces();
    VisibleAt(f, xs, 5);
    VisibleAt(f, xs, 4);
    assert Visible(f, xs[4..]) == [Unit(CharUnit('o')), Whitespace(CharUnit(' '))] + rest;
    VisibleAt(f, xs, 3);
    VisibleAt(f, xs, 2);
    assert Visible(f, xs[2..]) == Visible(f, xs[4..]);
    VisibleAt(f, xs, 1);
    VisibleAt(f, xs, 0);
    assert xs[0..] == xs;
  }

  lemma HelloWorldFiltered()
    ensures Drain(DefineFilterScan(New(Chars("Hello World\n")), IgnoreEll)) == HelloWorldWithoutEll()
  {
    var xs := Chars("Hello World\n");
    var t := DefineFilterScan(New(xs), IgnoreEll);
    assert t.filter == IgnoreEll && t.Remaining() == xs;
    CharsOfHelloWorld();
    DrainIsVisible(t);
    VisibleWithoutEllHead(xs);
    VisibleWithoutEllTail(xs);
    var head := [Unit(CharUnit('H')), Unit(CharUnit('e')), Unit(CharUnit('o')), Whitespace(CharUnit(' '))];
    var tail := [Unit(CharUnit('W')), Unit(CharUnit('o')), Unit(CharUnit('r')), Unit(CharUnit('d')), Whitespace(CharUnit('\n'))];
    assert Drain(t) == head + tail + [Eof];
    WithoutEllParts();
  }

  lemma WithoutEllParts()
    ensures [Unit(CharUnit('H')), Unit(CharUnit('e')), Unit(CharUnit('o')), Whitespace(CharUnit(' '))]
      + [Unit(CharUnit('W')), Unit(CharUnit('o')), Unit(CharUnit('r')), Unit(CharUnit('d')), Whitespace(CharUnit('\n'))]
      + [Eof] == HelloWorldWithoutEll()
  {}

  /** The predicate of the advancing example: the code point is whitespace. */
  predicate IsWhitespacePoint(cp: CodePoint) { cp.IsWhitespace() }

  /** No unit of `xs` is ignored and the peeks of the advancing loop are defined. */
  lemma {:induction false} PeeksWithoutIgnored(f: Unit -> CodePoint, xs: seq<Unit>, p: CodePoint -> bool, m: nat)
    requires forall i :: 0 <= i < |xs| ==> !f(xs[i]).Ignore?
    ensures PeeksFrom(f, xs, p, m, None)
    decreases |xs| - m
  {
    if m < |xs| {
      PeeksWithoutIgnored(f, xs, p, m + 1);
    }
  }

  /** Reads that satisfy `p` and stop where `p` fails stop at the first
      position `p` rejects: the result is the longest such prefix. */
  lemma StopsAtFirstRejected(f: Unit -> CodePoint, xs: seq<Unit>, p: CodePoint -> bool, result: seq<CodePoint>, k: nat)
    requires forall i :: 0 <= i < |result| ==> p(result[i]) && result[i] == Nth(f, xs, i)
    requires !p(Nth(f, xs, |result|))
    requires forall i :: 0 <= i < k ==> p(Nth(f, xs, i))
    requires !p(Nth(f, xs, k))
    ensures |result| == k
  {
    assert forall i :: 0 <= i < |result| ==> p(Nth(f, xs, i));
  }

  lemma SpacesThenLetter(xs: seq<Unit>)
    requires xs == Chars("   a b")
    ensures forall i :: 0 <= i < 3 ==> IsWhitespacePoint(Nth(DefaultFilterScan, xs, i))
    ensures !IsWhitespacePoint(Nth(DefaultFilterScan, xs, 3))
    ensures forall i :: 0 <= i < |xs| ==> !DefaultFilterScan(xs[i]).Ignore?
    ensures xs[3..] == Chars("a b")
  {
    FromPriority(xs[3]);
    forall i | 0 <= i < 3 ensures IsWhitespacePoint(Nth(DefaultFilterScan, xs, i)) {
      FromPriority(xs[i]);
    }
  }

  /** The advancing loop may run on "   a b": no peek meets an ignored unit,
      and the letter at position 3 is not whitespace. */
  lemma ReadyToSkip(xs: seq<Unit>, s: InputStream)
    requires xs == Chars("   a b") && s == New(xs)
    ensures s.Valid() && |s.Remaining()| == |xs|
    ensures PeeksDefined(s.filter, s.Remaining(), IsWhitespacePoint, None)
    ensures RejectsWithin(s.filter, s.Remaining(), IsWhitespacePoint)
  {
    SpacesThenLetter(xs);
    PeeksWithoutIgnored(DefaultFilterScan, xs, IsWhitespacePoint, 0);
    assert 3 <= |xs| && !IsWhitespacePoint(Nth(DefaultFilterScan, xs, 3));
  }

  /** What the advancing loop's contract gives on "   a b": three spaces read,
      "a b" left. */
  lemma SkippedThreeSpaces(xs: seq<Unit>, s: InputStream, s': InputStream, skipped: seq<CodePoint>)
    requires xs == Chars("   a b") && s == New(xs)
    requires |skipped| <= |xs|
    requires forall i :: 0 <= i < |skipped| ==> skipped[i] == s.filter(s.Remaining()[i]) && IsWhitespacePoint(skipped[i])
    requires !IsWhitespacePoint(Nth(s.filter, s.Remaining(), |skipped|))
    requires PositionedAt(s', s, |skipped|)
    ensures |skipped| == 3 && forall i :: 0 <= i < 3 ==> skipped[i].Whitespace?
    ensures s'.Remaining() == Chars("a b")
  {
    SpacesThenLetter(xs);
    StopsAtFirstRejected(DefaultFilterScan, xs, IsWhitespacePoint, skipped, 3);
    forall i | 0 <= i < 3 ensures skipped[i].Whitespace? {
      FromPriority(xs[i]);
    }
  }

  /** The example of the advancing operation: on "   a b", advancing while the
      next code point is whitespace reads the three spaces and leaves "a b". */
  method SkipLeadingSpaces() returns (s': InputStream, skipped: seq<CodePoint>)
    ensures |skipped| == 3 && forall i :: 0 <= i < 3 ==> skipped[i].Whitespace?
    ensures s'.Remaining() == Chars("a b")
  {
    var xs := Chars("   a b");
    var s := New(xs);
    ReadyToSkip(xs, s);
    s', skipped := AdvanceAsLongAsPossible(s, IsWhitespacePoint);
    SkippedThreeSpaces(xs, s, s', skipped);
  }
}
