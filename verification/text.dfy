/** Character, string and sequence helpers shared by the lexer model:
    ASCII case mapping (Rust's `to_ascii_lowercase` / `to_ascii_uppercase`),
    character replacement (`str::replace` with a one-character pattern),
    decimal printing and reading of naturals, and generic sequence
    combinators (filter, reverse, map, left fold). */
module Text {

  predicate IsAsciiUpper(c: char) { 'A' <= c <= 'Z' }

  predicate IsAsciiLower(c: char) { 'a' <= c <= 'z' }

  predicate IsAsciiDigit(c: char) { '0' <= c <= '9' }

  function ToLowerChar(c: char): char {
    if IsAsciiUpper(c) then (c as int + 32) as char else c
  }

  function ToUpperChar(c: char): char {
    if IsAsciiLower(c) then (c as int - 32) as char else c
  }

  /** Rust's `str::to_ascii_lowercase`: only 'A'..'Z' change. */
  function AsciiLower(s: string): (r: string)
    ensures |r| == |s|
    ensures forall i :: 0 <= i < |s| ==> !IsAsciiUpper(r[i])
    ensures forall i :: 0 <= i < |s| && !IsAsciiUpper(s[i]) ==> r[i] == s[i]
  {
    seq(|s|, i requires 0 <= i < |s| => ToLowerChar(s[i]))
  }

  /** Rust's `str::to_ascii_uppercase`: only 'a'..'z' change. */
  function AsciiUpper(s: string): (r: string)
    ensures |r| == |s|
    ensures forall i :: 0 <= i < |s| ==> !IsAsciiLower(r[i])
    ensures forall i :: 0 <= i < |s| && !IsAsciiLower(s[i]) ==> r[i] == s[i]
  {
    seq(|s|, i requires 0 <= i < |s| => ToUpperChar(s[i]))
  }

  /** Rust's `str::replace(from, to)` for one-character patterns. */
  function ReplaceChar(s: string, from: char, to: char): (r: string)
    ensures |r| == |s|
    ensures from != to ==> forall i :: 0 <= i < |r| ==> r[i] != from
    ensures forall i :: 0 <= i < |s| && s[i] != from ==> r[i] == s[i]
  {
    seq(|s|, i requires 0 <= i < |s| => if s[i] == from then to else s[i])
  }

  /** Two characters agree up to ASCII case. */
  predicate SameIgnoringAsciiCase(a: char, b: char) {
    a == b || (IsAsciiLower(a) && b as int == a as int - 32) || (IsAsciiUpper(a) && b as int == a as int + 32)
  }

  /** Rust's `str::eq_ignore_ascii_case`. */
  predicate EqIgnoringAsciiCase(s: string, t: string) {
    |s| == |t| && forall i :: 0 <= i < |s| ==> SameIgnoringAsciiCase(s[i], t[i])
  }

  /** Upper-casing makes two strings equal exactly when they agree up to ASCII case,
      provided the target is already upper case. */
  lemma AsciiUpperMatchesIgnoringCase(s: string, t: string)
    requires forall i :: 0 <= i < |t| ==> !IsAsciiLower(t[i])
    ensures AsciiUpper(s) == t <==> EqIgnoringAsciiCase(s, t)
  {
    if AsciiUpper(s) == t {
      forall i | 0 <= i < |s| ensures SameIgnoringAsciiCase(s[i], t[i]) {
        assert t[i] == ToUpperChar(s[i]);
      }
    }
    if EqIgnoringAsciiCase(s, t) {
      forall i | 0 <= i < |s| ensures AsciiUpper(s)[i] == t[i] {
        assert SameIgnoringAsciiCase(s[i], t[i]);
      }
    }
  }

  // ---------------------------------------------------------------------
  // Decimal numerals
  // ---------------------------------------------------------------------

  function DigitChar(d: nat): (c: char)
    requires d < 10
    ensures IsAsciiDigit(c) && c as int - '0' as int == d
  {
    ('0' as int + d) as char
  }

  predicate AllDigits(s: string) {
    forall i :: 0 <= i < |s| ==> IsAsciiDigit(s[i])
  }

  /** The shortest decimal numeral of `n`, as Rust's `{}` formatting of an unsigned integer prints it. */
  function NatToDecimal(n: nat): (s: string)
    ensures 0 < |s|
    ensures AllDigits(s)
    decreases n
  {
    if n < 10 then [DigitChar(n)] else NatToDecimal(n / 10) + [DigitChar(n % 10)]
  }

  /** The value of a string of decimal digits (most significant first). */
  function DigitsValue(s: string): nat
    requires AllDigits(s)
  {
    if s == [] then 0 else DigitsValue(s[..|s| - 1]) * 10 + (s[|s| - 1] as int - '0' as int)
  }

  /** Printing a natural in decimal and reading it back gives the natural. */
  lemma {:induction false} DecimalRoundTrip(n: nat)
    ensures DigitsValue(NatToDecimal(n)) == n
    decreases n
  {
    var s := NatToDecimal(n);
    if n >= 10 {
      DecimalRoundTrip(n / 10);
      assert s[..|s| - 1] == NatToDecimal(n / 10);
    }
  }

  // ---------------------------------------------------------------------
  // Sequence combinators
  // ---------------------------------------------------------------------

  /** The elements of `s` that satisfy `keep`, in their original order. */
  function Filter<T>(s: seq<T>, keep: T -> bool): (r: seq<T>)
    ensures |r| <= |s|
    ensures forall i :: 0 <= i < |r| ==> keep(r[i])
  {
    if s == [] then [] else (if keep(s[0]) then [s[0]] else []) + Filter(s[1..], keep)
  }

  lemma {:induction false} FilterAppend<T>(a: seq<T>, b: seq<T>, keep: T -> bool)
    ensures Filter(a + b, keep) == Filter(a, keep) + Filter(b, keep)
  {
    if a == [] {
      assert a + b == b;
    } else {
      assert (a + b)[1..] == a[1..] + b;
      FilterAppend(a[1..], b, keep);
    }
  }

  /** `s` read from its last element to its first. */
  function Reverse<T>(s: seq<T>): (r: seq<T>)
    ensures |r| == |s|
    ensures forall i :: 0 <= i < |s| ==> r[i] == s[|s| - 1 - i]
  {
    if s == [] then [] else Reverse(s[1..]) + [s[0]]
  }

  function Map<A, B>(s: seq<A>, f: A -> B): (r: seq<B>)
    ensures |r| == |s|
    ensures forall i :: 0 <= i < |s| ==> r[i] == f(s[i])
  {
    seq(|s|, i requires 0 <= i < |s| => f(s[i]))
  }

  /** Applies `f` to each element in order, threading an accumulator. */
  function FoldLeft<A, B>(f: (A, B) -> A, init: A, s: seq<B>): A {
    if s == [] then init else FoldLeft(f, f(init, s[0]), s[1..])
  }

  lemma {:induction false} FoldLeftSnoc<A, B>(f: (A, B) -> A, init: A, s: seq<B>, x: B)
    ensures FoldLeft(f, init, s + [x]) == f(FoldLeft(f, init, s), x)
  {
    if s != [] {
      assert (s + [x])[1..] == s[1..] + [x];
      FoldLeftSnoc(f, f(init, s[0]), s[1..], x);
    }
  }
}
