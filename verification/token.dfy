/** The token stream: the tokens a producer stream yielded, collected up
    front, the token currently being operated on, a flag asking the next read
    to return that token again, and a recycle bin of tokens already passed.

    Tokens are `Result`s: a producer's errors are kept in the list like any
    other token. The stream's error type is a parameter; `eos` is its
    end-of-stream value. A `TokenStream` is an immutable record and each
    operation returns the new stream together with its result. */
module TokenStreams {
  import opened Wrappers
  import Text

  /** The token stream's own error enumeration (one variant). */
  datatype TokenStreamError = Eof

  datatype TokenStream<T, E> = TokenStream(
    tokens: seq<Result<T, E>>,
    current: Option<Result<T, E>>,
    reconsumeNow: bool,
    recycle: seq<Result<T, E>>)
  {
    /** What every operation keeps: when a reconsume is pending, the token
        operated on is back at the front of the list. */
    ghost predicate Consistent() {
      reconsumeNow ==> current.Some? && tokens != [] && tokens[0] == current.value
    }
  }

  // ---------------------------------------------------------------------
  // Collecting a producer's items
  // ---------------------------------------------------------------------

  /** A read the collection stops at: a successful end-of-file item. */
  predicate IsEofRead<T, E>(r: Result<T, E>, isEof: T -> bool) {
    r.Ok? && isEof(r.value)
  }

  /** A read the collection keeps: anything but a successful ignored item. */
  predicate Kept<T, E>(r: Result<T, E>, isIgnored: T -> bool) {
    !(r.Ok? && isIgnored(r.value))
  }

  /** The producer's items reach an end-of-file item (the collecting loop
      only ends there). */
  predicate ReachesEof<T, E>(items: seq<Result<T, E>>, isEof: T -> bool) {
    items != [] && (IsEofRead(items[0], isEof) || ReachesEof(items[1..], isEof))
  }

  /** The position of the first end-of-file read. */
  function FirstEof<T, E>(items: seq<Result<T, E>>, isEof: T -> bool): (k: nat)
    requires ReachesEof(items, isEof)
    ensures k < |items| && IsEofRead(items[k], isEof)
    ensures forall i :: 0 <= i < k ==> !IsEofRead(items[i], isEof)
  {
    if IsEofRead(items[0], isEof) then 0 else 1 + FirstEof(items[1..], isEof)
  }

  /** The loop of `from_stream`: stops at the first end-of-file read, skips
      ignored items, keeps everything else, errors included. */
  function Collected<T, E>(items: seq<Result<T, E>>, isEof: T -> bool, isIgnored: T -> bool): (r: seq<Result<T, E>>)
    requires ReachesEof(items, isEof)
    ensures |r| <= |items|
    ensures forall i :: 0 <= i < |r| ==> !IsEofRead(r[i], isEof) && Kept(r[i], isIgnored)
  {
    var x := items[0];
    if IsEofRead(x, isEof) then []
    else if x.Ok? && isIgnored(x.value) then Collected(items[1..], isEof, isIgnored)
    else [x] + Collected(items[1..], isEof, isIgnored)
  }

  /** `from_stream`: the collected tokens, nothing operated on, nothing recycled. */
  function FromStream<T, E>(items: seq<Result<T, E>>, isEof: T -> bool, isIgnored: T -> bool): (ts: TokenStream<T, E>)
    requires ReachesEof(items, isEof)
    ensures ts.current.None? && !ts.reconsumeNow && ts.recycle == []
    ensures ts.Consistent()
    ensures forall i :: 0 <= i < |ts.tokens| ==> !IsEofRead(ts.tokens[i], isEof) && Kept(ts.tokens[i], isIgnored)
  {
    TokenStream(Collected(items, isEof, isIgnored), None, false, [])
  }

  /** The collected tokens are exactly the kept items before the first
      end-of-file read, in order. */
  lemma {:induction false} CollectedIsFilter<T, E>(items: seq<Result<T, E>>, isEof: T -> bool, isIgnored: T -> bool)
    requires ReachesEof(items, isEof)
    ensures Collected(items, isEof, isIgnored)
      == Text.Filter(items[..FirstEof(items, isEof)], (r: Result<T, E>) => Kept(r, isIgnored))
  {
    var keep := (r: Result<T, E>) => Kept(r, isIgnored);
    if !IsEofRead(items[0], isEof) {
      CollectedIsFilter(items[1..], isEof, isIgnored);
      var k := FirstEof(items[1..], isEof);
      assert items[..k + 1] == [items[0]] + items[1..][..k];
      Text.FilterAppend([items[0]], items[1..][..k], keep);
    }
  }

  /** `collect`: a copy of the list of tokens. */
  function Collect<T, E>(ts: TokenStream<T, E>): (r: seq<Result<T, E>>)
    ensures |r| == |ts.tokens| && forall i :: 0 <= i < |r| ==> r[i] == ts.tokens[i]
  {
    ts.tokens
  }

  // ---------------------------------------------------------------------
  // Reading
  // ---------------------------------------------------------------------

  /** `current`: the token operated on, when it is a success. */
  function Current<T, E>(ts: TokenStream<T, E>): (r: Option<T>)
    ensures r.Some? <==> ts.current.Some? && ts.current.value.Ok?
    ensures r.Some? ==> ts.current == Some(Ok(r.value))
  {
    match ts.current
    case Some(Ok(t)) => Some(t)
    case _ => None
  }

  /** `consume_next`: takes the first token of the list and makes it the
      token operated on. The token recycled is the previous token operated
      on, or, when there was none, the taken token itself. An empty list
      panics. */
  function ConsumeNext<T, E>(ts: TokenStream<T, E>): (r: (TokenStream<T, E>, Result<T, E>))
    requires ts.tokens != []
    ensures [r.1] + r.0.tokens == ts.tokens
    ensures r.0.current == Some(r.1) && !r.0.reconsumeNow
    ensures |r.0.recycle| == |ts.recycle| + 1 && r.0.recycle[..|ts.recycle|] == ts.recycle
    ensures r.0.recycle[|ts.recycle|] == if ts.current.Some? then ts.current.value else r.1
    ensures r.0.Consistent()
  {
    var token := ts.tokens[0];
    var recycled := if ts.current.None? then token else ts.current.value;
    assert (ts.recycle + [recycled])[..|ts.recycle|] == ts.recycle;
    (TokenStream(ts.tokens[1..], Some(token), false, ts.recycle + [recycled]), token)
  }

  /** `peek_next`: the token operated on while a reconsume is pending, else
      the first token of the list, else the end-of-stream error. A pending
      reconsume with no token operated on panics. */
  function PeekNext<T, E>(ts: TokenStream<T, E>, eos: E): (r: Result<T, E>)
    requires ts.reconsumeNow ==> ts.current.Some?
    ensures ts.reconsumeNow ==> Some(r) == ts.current
    ensures !ts.reconsumeNow && ts.tokens == [] ==> r == Err(eos)
    ensures !ts.reconsumeNow && ts.tokens != [] ==> r == ts.tokens[0]
  {
    if ts.reconsumeNow then ts.current.value
    else if |ts.tokens| == 0 then Err(eos)
    else ts.tokens[0]
  }

  /** `reconsume_current`: puts the token operated on back at the front of
      the list and raises the flag. No token operated on panics. */
  function ReconsumeCurrent<T, E>(ts: TokenStream<T, E>): (r: TokenStream<T, E>)
    requires ts.current.Some?
    ensures r.tokens == [ts.current.value] + ts.tokens && r.reconsumeNow
    ensures r.current == ts.current && r.recycle == ts.recycle
    ensures r.Consistent()
  {
    ts.(tokens := [ts.current.value] + ts.tokens, reconsumeNow := true)
  }

  // ---------------------------------------------------------------------
  // Properties of reading
  // ---------------------------------------------------------------------

  /** The peek contract of the stream interface: on a consistent stream whose
      list is not empty, peeking returns what the next read returns, and
      changes nothing. */
  lemma PeekThenConsume<T, E>(ts: TokenStream<T, E>, eos: E)
    requires ts.Consistent() && ts.tokens != []
    ensures PeekNext(ts, eos) == ConsumeNext(ts).1
  {}

  /** Every read leaves the token it returned as the current one. */
  lemma CurrentAfterConsume<T, E>(ts: TokenStream<T, E>)
    requires ts.tokens != []
    ensures ConsumeNext(ts).1.Ok? ==> Current(ConsumeNext(ts).0) == Some(ConsumeNext(ts).1.value)
    ensures ConsumeNext(ts).1.Err? ==> Current(ConsumeNext(ts).0).None?
  {}

  /** Reconsuming makes the next read return the current token again and
      restores the list, and the current token is recycled once more. */
  lemma ReconsumeReplays<T, E>(ts: TokenStream<T, E>)
    requires ts.current.Some?
    ensures ConsumeNext(ReconsumeCurrent(ts)).1 == ts.current.value
    ensures ConsumeNext(ReconsumeCurrent(ts)).0.tokens == ts.tokens
    ensures ConsumeNext(ReconsumeCurrent(ts)).0.recycle == ts.recycle + [ts.current.value]
  {}

  /** `k` successive reads: the list loses its first `k` tokens. */
  function ConsumeTimes<T, E>(ts: TokenStream<T, E>, k: nat): (r: TokenStream<T, E>)
    requires k <= |ts.tokens|
    ensures r.tokens == ts.tokens[k..]
  {
    if k == 0 then ts else ConsumeNext(ConsumeTimes(ts, k - 1)).0
  }

  /** After `k > 0` reads from a fresh stream the first token has been
      recycled twice: the bin holds the first token, then the first `k - 1`
      tokens, while the `k`-th token is the current one. */
  lemma {:induction false} ConsumeTimesRecyclesFirstTwice<T, E>(ts: TokenStream<T, E>, k: nat)
    requires ts.current.None? && ts.recycle == []
    requires 0 < k <= |ts.tokens|
    ensures ConsumeTimes(ts, k).current == Some(ts.tokens[k - 1])
    ensures ConsumeTimes(ts, k).recycle == [ts.tokens[0]] + ts.tokens[..k - 1]
  {
    if k > 1 {
      ConsumeTimesRecyclesFirstTwice(ts, k - 1);
      assert ts.tokens[..k - 1] == ts.tokens[..k - 2] + [ts.tokens[k - 2]];
    }
  }

  /** The smallest input that shows it: two reads of `[a, b]` leave `[a, a]`
      in the recycle bin. */
  lemma TwoReadsRecycleFirstTwice<T, E>(a: Result<T, E>, b: Result<T, E>)
    ensures ConsumeTimes(TokenStream([a, b], None, false, []), 2).recycle == [a, a]
  {
    ConsumeTimesRecyclesFirstTwice(TokenStream([a, b], None, false, []), 2);
  }

  /** `consume_next` as evidently intended: only a previous current token is
      recycled, so each token passed is recycled once. */
  function ConsumeNextCorrected<T, E>(ts: TokenStream<T, E>): (r: (TokenStream<T, E>, Result<T, E>))
    requires ts.tokens != []
    ensures [r.1] + r.0.tokens == ts.tokens
    ensures r.0.current == Some(r.1) && !r.0.reconsumeNow
    ensures r.0.recycle == ts.recycle + (if ts.current.Some? then [ts.current.value] else [])
    ensures r.0.Consistent()
  {
    var token := ts.tokens[0];
    var recycled := if ts.current.Some? then [ts.current.value] else [];
    (TokenStream(ts.tokens[1..], Some(token), false, ts.recycle + recycled), token)
  }

  function ConsumeTimesCorrected<T, E>(ts: TokenStream<T, E>, k: nat): (r: TokenStream<T, E>)
    requires k <= |ts.tokens|
    ensures r.tokens == ts.tokens[k..]
  {
    if k == 0 then ts else ConsumeNextCorrected(ConsumeTimesCorrected(ts, k - 1)).0
  }

  /** With the correction, after `k > 0` reads from a fresh stream the recycle
      bin holds the first `k - 1` tokens, each once, and the `k`-th token is
      the current one. */
  lemma {:induction false} ConsumeTimesCorrectedRecyclesOnce<T, E>(ts: TokenStream<T, E>, k: nat)
    requires ts.current.None? && ts.recycle == []
    requires 0 < k <= |ts.tokens|
    ensures ConsumeTimesCorrected(ts, k).current == Some(ts.tokens[k - 1])
    ensures ConsumeTimesCorrected(ts, k).recycle == ts.tokens[..k - 1]
  {
    if k > 1 {
      ConsumeTimesCorrectedRecyclesOnce(ts, k - 1);
      assert ts.tokens[..k - 1] == ts.tokens[..k - 2] + [ts.tokens[k - 2]];
    }
  }

  // ---------------------------------------------------------------------
  // Recovering from the recycle bin
  // ---------------------------------------------------------------------

  /** The longest suffix of `xs` whose elements all satisfy `p`. */
  function LongestSuffix<X>(xs: seq<X>, p: X -> bool): (r: seq<X>)
    ensures |r| <= |xs|
    ensures forall i :: 0 <= i < |r| ==> r[i] == xs[|xs| - |r| + i] && p(r[i])
    ensures |r| < |xs| ==> !p(xs[|xs| - |r| - 1])
  {
    if xs == [] || !p(xs[|xs| - 1]) then []
    else LongestSuffix(xs[..|xs| - 1], p) + [xs[|xs| - 1]]
  }

  /** A suffix all of whose elements satisfy `p` and that cannot be extended
      is the longest one. */
  lemma {:induction false} MaximalSuffixIsLongest<X>(xs: seq<X>, p: X -> bool, k: nat)
    requires k <= |xs|
    requires forall j :: k <= j < |xs| ==> p(xs[j])
    requires k == 0 || !p(xs[k - 1])
    ensures LongestSuffix(xs, p) == xs[k..]
  {
    if k < |xs| {
      var init := xs[..|xs| - 1];
      assert p(xs[|xs| - 1]);
      assert LongestSuffix(xs, p) == LongestSuffix(init, p) + [xs[|xs| - 1]];
      forall j | k <= j < |init| ensures p(init[j]) {
        assert init[j] == xs[j];
      }
      assert k == 0 || init[k - 1] == xs[k - 1];
      MaximalSuffixIsLongest(init, p, k);
      assert xs[k..] == init[k..] + [xs[|xs| - 1]];
    } else {
      assert LongestSuffix(xs, p) == [];
    }
  }

  /** The state of the recovering loop after `i` tokens: they are the last
      `i` of the bin, all satisfy `p`, and `result` holds them most recent first. */
  ghost predicate Recovered<X>(bin: seq<X>, p: X -> bool, i: nat, result: seq<X>) {
    && i <= |bin|
    && result == Text.Reverse(bin[|bin| - i..])
    && forall j :: |bin| - i <= j < |bin| ==> p(bin[j])
  }

  lemma RecoverStep<X>(bin: seq<X>, p: X -> bool, i: nat, result: seq<X>)
    requires Recovered(bin, p, i, result)
    requires i < |bin| && p(bin[|bin| - 1 - i])
    ensures Recovered(bin, p, i + 1, result + [bin[|bin| - 1 - i]])
  {
    assert bin[|bin| - 1 - i..][1..] == bin[|bin| - i..];
  }

  lemma SplitAt<X>(xs: seq<X>, k: nat)
    requires k <= |xs|
    ensures xs[..k] + xs[k..] == xs
  {}

  /** `recover_as_long_as_possible`: walks the recycle bin from its most
      recent token back while `p` holds, returns those tokens most recent
      first, and drains them from the bin. */
  method RecoverAsLongAsPossible<T, E>(ts: TokenStream<T, E>, p: Result<T, E> -> bool)
    returns (ts': TokenStream<T, E>, result: seq<Result<T, E>>)
    ensures result == Text.Reverse(LongestSuffix(ts.recycle, p))
    ensures ts'.recycle + LongestSuffix(ts.recycle, p) == ts.recycle
    ensures ts'.tokens == ts.tokens && ts'.current == ts.current && ts'.reconsumeNow == ts.reconsumeNow
  {
    var bin := ts.recycle;
    var n := |bin|;
    result := [];
    var i := 0;
    while i < n && p(bin[n - 1 - i])
      invariant Recovered(bin, p, i, result)
    {
      RecoverStep(bin, p, i, result);
      result := result + [bin[n - 1 - i]];
      i := i + 1;
    }
    MaximalSuffixIsLongest(bin, p, n - i);
    SplitAt(bin, n - i);
    ts' := ts.(recycle := bin[..n - i]);
  }
}
