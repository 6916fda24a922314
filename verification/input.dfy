/** The input stream: a lookahead queue of units, a filter that classifies
    each unit into a code point, and the last unit taken from the queue.
    Units the filter classifies as `Ignore` are consumed silently; once the
    units run out, every read yields `Eof`.

    The filter is a plain function (the source stores an `fn` item), so it
    is total and has no state. */
module InputStreams {
  import opened Wrappers
  import opened CodePoints
  import Queues
  import Text

  datatype InputStream = InputStream(queue: Queues.Queue<Unit>, filter: Unit -> CodePoint, currentInput: Option<Unit>) {

    /** The queue's lookahead offset starts at 0 and never grows. */
    predicate Valid() { queue.offset == 0 }

    /** The units not yet consumed, in order. */
    function Remaining(): seq<Unit> { queue.Pending() }
  }

  /** `default_filter_scan`: the standard classifier. */
  function DefaultFilterScan(u: Unit): (cp: CodePoint)
    ensures !cp.Eof? && !cp.Ignore?
    ensures cp.MaybeUnit() == if u.value == 0 then None else Some(AsChar(u))
  {
    FromKeepsCharacter(u);
    From(u)
  }

  /** `InputStream::new`: nothing consumed, the standard classifier. */
  function New(units: seq<Unit>): (s: InputStream)
    ensures s.Valid() && s.Remaining() == units && s.currentInput.None?
    ensures forall u :: s.filter(u) == From(u)
  {
    InputStream(Queues.New(units), DefaultFilterScan, None)
  }

  /** `define_filter_scan`: replaces the classifier, nothing else. */
  function DefineFilterScan(s: InputStream, f: Unit -> CodePoint): (r: InputStream)
    ensures r.filter == f
    ensures r.Remaining() == s.Remaining() && r.currentInput == s.currentInput
    ensures s.Valid() ==> r.Valid()
  {
    s.(filter := f)
  }

  /** The position of the first unit of `xs` that `f` does not ignore, or `|xs|`. */
  function FirstVisible(f: Unit -> CodePoint, xs: seq<Unit>): (k: nat)
    ensures k <= |xs|
    ensures forall i :: 0 <= i < k ==> f(xs[i]).Ignore?
    ensures k < |xs| ==> !f(xs[k]).Ignore?
  {
    if xs == [] then 0
    else if f(xs[0]).Ignore? then 1 + FirstVisible(f, xs[1..])
    else 0
  }

  /** What a read of `xs` finds: the first unit `f` does not ignore, classified, or `Eof`. */
  function ReadResult(f: Unit -> CodePoint, xs: seq<Unit>): CodePoint {
    var k := FirstVisible(f, xs);
    if k < |xs| then f(xs[k]) else Eof
  }

  /** The units a read of `xs` leaves: those after the first unit `f` does not ignore. */
  function ReadRest(f: Unit -> CodePoint, xs: seq<Unit>): seq<Unit> {
    var k := FirstVisible(f, xs);
    if k < |xs| then xs[k + 1..] else []
  }

  /** The last unit a read of `xs` takes, if any is not ignored. */
  function ReadUnit(f: Unit -> CodePoint, xs: seq<Unit>): Option<Unit> {
    var k := FirstVisible(f, xs);
    if k < |xs| then Some(xs[k]) else None
  }

  /** Skipping one ignored unit moves the first visible position back by one. */
  lemma FirstVisibleSkips(f: Unit -> CodePoint, xs: seq<Unit>)
    requires xs != [] && f(xs[0]).Ignore?
    ensures ReadResult(f, xs) == ReadResult(f, xs[1..])
    ensures ReadRest(f, xs) == ReadRest(f, xs[1..])
    ensures ReadUnit(f, xs) == ReadUnit(f, xs[1..])
  {
    var k := FirstVisible(f, xs[1..]);
    assert FirstVisible(f, xs) == 1 + k;
    if k < |xs[1..]| {
      assert xs[1..][k + 1..] == xs[k + 2..];
    }
  }

  /** `consume_next`: takes units until one is not ignored. The last unit taken
      becomes the current input; with no unit left the result is `Eof` and the
      current input is cleared. */
  function ConsumeNext(s: InputStream): (r: (InputStream, CodePoint))
    ensures r.1 == ReadResult(s.filter, s.Remaining())
    ensures r.0.Remaining() == ReadRest(s.filter, s.Remaining())
    ensures r.0.currentInput == ReadUnit(s.filter, s.Remaining())
    ensures r.0.filter == s.filter
    ensures s.Valid() ==> r.0.Valid()
    ensures !r.1.Ignore?
    decreases |s.Remaining()|
  {
    var (q, taken) := Queues.Next(s.queue);
    var cp := if taken.Some? then s.filter(taken.value) else Eof;
    var s1 := s.(queue := q, currentInput := taken);
    if cp.Ignore? then
      FirstVisibleSkips(s.filter, s.Remaining());
      ConsumeNext(s1)
    else (s1, cp)
  }

  /** `current`: the current input, classified again by the filter. */
  function Current(s: InputStream): (r: Option<CodePoint>)
    ensures r.Some? <==> s.currentInput.Some?
    ensures r.Some? ==> r.value == s.filter(s.currentInput.value)
  {
    match s.currentInput
    case Some(u) => Some(s.filter(u))
    case None => None
  }

  /** The front unit, if any, is not ignored: the condition under which the
      source's `peek_next` returns instead of recursing forever without
      consuming anything. */
  predicate FrontNotIgnored(s: InputStream) {
    |s.Remaining()| == 0 || !s.filter(s.Remaining()[0]).Ignore?
  }

  /** One activation of the source's `peek_next`: the front unit classified,
      or `Eof`, and the stream after the queue's peek. When the code point is
      `Ignore` the source calls `peek_next` again on that stream. */
  function PeekOnce(s: InputStream): (r: (InputStream, CodePoint))
    requires s.Valid()
    ensures r.0.Valid() && r.0.filter == s.filter
    ensures r.0.Remaining() == s.Remaining() && r.0.currentInput == s.currentInput
    ensures r.1 == if |s.Remaining()| == 0 then Eof else s.filter(s.Remaining()[0])
  {
    var (q, front) := Queues.PeekNext(s.queue);
    (s.(queue := q), if front.Some? then s.filter(front.value) else Eof)
  }

  /** The stream after `n` activations of the source's `peek_next`. */
  function PeekActivations(s: InputStream, n: nat): (t: InputStream)
    requires s.Valid()
    ensures t.Valid()
    decreases n
  {
    if n == 0 then s else PeekActivations(PeekOnce(s).0, n - 1)
  }

  /** As written, `peek_next` on an ignored front unit never returns: the
      queue's peek moves nothing, so every activation meets the same ignored
      unit and recurses again. */
  lemma {:induction false} IgnoredFrontRecursesForever(s: InputStream, n: nat)
    requires s.Valid() && !FrontNotIgnored(s)
    ensures PeekActivations(s, n).Remaining() == s.Remaining()
    ensures PeekOnce(PeekActivations(s, n)).1.Ignore?
    decreases n
  {
    if n > 0 {
      IgnoredFrontRecursesForever(PeekOnce(s).0, n - 1);
    }
  }

  /** `peek_next`: the classified front unit, or `Eof`, without consuming it.
      The source's recursion on an ignored front unit is excluded by the
      precondition. */
  function PeekNext(s: InputStream): (r: (InputStream, CodePoint))
    requires s.Valid() && FrontNotIgnored(s)
    ensures r.0.Valid() && r.0.filter == s.filter
    ensures r.0.Remaining() == s.Remaining() && r.0.currentInput == s.currentInput
    ensures r.1 == ConsumeNext(s).1
  {
    PeekOnce(s)
  }

  /** The code point a peek that skips ignored units finds in `xs`. */
  function PeekPast(f: Unit -> CodePoint, xs: seq<Unit>): (cp: CodePoint)
    ensures cp == ReadResult(f, xs)
  {
    if xs == [] then Eof
    else if f(xs[0]).Ignore? then
      FirstVisibleSkips(f, xs);
      PeekPast(f, xs[1..])
    else f(xs[0])
  }

  /** `peek_next` as evidently intended: like `consume_next`, it looks past
      ignored units, but consumes nothing. Defined on every stream. */
  function PeekVisible(s: InputStream): (r: (InputStream, CodePoint))
    requires s.Valid()
    ensures r.0.Valid() && r.0.filter == s.filter
    ensures r.0.Remaining() == s.Remaining() && r.0.currentInput == s.currentInput
    ensures r.1 == ConsumeNext(s).1 && !r.1.Ignore?
  {
    (PeekOnce(s).0, PeekPast(s.filter, s.Remaining()))
  }

  /** Where the source's `peek_next` returns, it agrees with the corrected peek. */
  lemma PeekNextIsPeekVisible(s: InputStream)
    requires s.Valid() && FrontNotIgnored(s)
    ensures PeekNext(s) == PeekVisible(s)
  {}

  /** `reconsume_current`: pushes the current input back to the front. Panics
      (so is required away) when there is no current input. */
  function ReconsumeCurrent(s: InputStream): (r: InputStream)
    requires s.currentInput.Some?
    ensures r.Remaining() == [s.currentInput.value] + s.Remaining()
    ensures r.currentInput == s.currentInput && r.filter == s.filter
    ensures s.Valid() ==> r.Valid()
  {
    s.(queue := Queues.Reconsume(s.queue, s.currentInput))
  }

  // ---------------------------------------------------------------------
  // Single-step properties
  // ---------------------------------------------------------------------

  /** After a read, `current()` is the code point read, unless the units ran out. */
  lemma CurrentAfterConsume(s: InputStream)
    ensures var k := FirstVisible(s.filter, s.Remaining());
      Current(ConsumeNext(s).0) == if k < |s.Remaining()| then Some(ConsumeNext(s).1) else None
  {}

  /** Once the units are exhausted, every read yields `Eof` and changes nothing. */
  lemma ExhaustedYieldsEofForever(s: InputStream)
    requires s.Remaining() == []
    ensures ConsumeNext(s).1 == Eof
    ensures ConsumeNext(s).0.Remaining() == [] && Current(ConsumeNext(s).0).None?
  {}

  /** With a filter that never classifies a unit as `Eof`, a read yields `Eof`
      exactly when no visible unit is left. */
  lemma EofOnlyAtTheEnd(s: InputStream)
    requires forall u :: !s.filter(u).Eof?
    ensures ConsumeNext(s).1 == Eof <==> FirstVisible(s.filter, s.Remaining()) == |s.Remaining()|
  {}

  /** Peeking changes nothing a later read can observe: the read after a peek
      returns what the peek returned and leaves the same remaining units. */
  lemma PeekThenConsume(s: InputStream)
    requires s.Valid() && FrontNotIgnored(s)
    ensures ConsumeNext(PeekNext(s).0).1 == PeekNext(s).1
    ensures ConsumeNext(PeekNext(s).0).0.Remaining() == ConsumeNext(s).0.Remaining()
    ensures Current(PeekNext(s).0) == Current(s)
  {}

  /** Reconsuming after a read makes the next read return the same code point
      and leaves the units that followed it. */
  lemma ReconsumeReplays(s: InputStream)
    requires FirstVisible(s.filter, s.Remaining()) < |s.Remaining()|
    ensures ConsumeNext(s).0.currentInput.Some?
    ensures ConsumeNext(ReconsumeCurrent(ConsumeNext(s).0)).1 == ConsumeNext(s).1
    ensures ConsumeNext(ReconsumeCurrent(ConsumeNext(s).0)).0.Remaining() == ConsumeNext(s).0.Remaining()
  {}

  // ---------------------------------------------------------------------
  // Whole-stream behaviour
  // ---------------------------------------------------------------------

  /** The code points `f` gives the units of `xs`, ignored ones dropped. */
  function Visible(f: Unit -> CodePoint, xs: seq<Unit>): (r: seq<CodePoint>)
    ensures |r| <= |xs|
    ensures forall i :: 0 <= i < |r| ==> !r[i].Ignore?
  {
    if xs == [] then []
    else (if f(xs[0]).Ignore? then [] else [f(xs[0])]) + Visible(f, xs[1..])
  }

  /** The reads of a stream up to and including the first `Eof`. */
  function Drain(s: InputStream): (r: seq<CodePoint>)
    ensures 0 < |r| && r[|r| - 1] == Eof
    decreases |s.Remaining()|
  {
    var (s1, cp) := ConsumeNext(s);
    if cp.Eof? then [cp] else [cp] + Drain(s1)
  }

  /** Skipping the ignored prefix: the visible code points start with the first
      unit that is not ignored. */
  lemma {:induction false} VisibleFromFirst(f: Unit -> CodePoint, xs: seq<Unit>)
    ensures var k := FirstVisible(f, xs);
      Visible(f, xs) == if k < |xs| then [f(xs[k])] + Visible(f, xs[k + 1..]) else []
  {
    if xs != [] && f(xs[0]).Ignore? {
      VisibleFromFirst(f, xs[1..]);
      var k := FirstVisible(f, xs[1..]);
      if k < |xs[1..]| {
        assert xs[1..][k + 1..] == xs[k + 2..];
      }
    }
  }

  /** `f` classifies no unit of `xs` as `Eof`. */
  predicate NoUnitReadsAsEof(f: Unit -> CodePoint, xs: seq<Unit>) {
    forall i :: 0 <= i < |xs| ==> !f(xs[i]).Eof?
  }

  /** With a filter that never yields `Eof`, draining a stream reads exactly
      the visible code points of its units, in order, then `Eof`. */
  lemma {:induction false} DrainIsVisible(s: InputStream)
    requires NoUnitReadsAsEof(s.filter, s.Remaining())
    ensures Drain(s) == Visible(s.filter, s.Remaining()) + [Eof]
    decreases |s.Remaining()|
  {
    var xs := s.Remaining();
    var k := FirstVisible(s.filter, xs);
    if k < |xs| {
      var r := ConsumeNext(s);
      ReadVisible(s);
      NoEofSuffix(s.filter, xs, k + 1);
      DrainIsVisible(r.0);
      DrainVisibleStep(s);
      VisibleStep(s.filter, xs);
      ConsThenSnoc(r.1, Visible(s.filter, r.0.Remaining()), Eof);
    } else {
      DrainAtEnd(s);
    }
  }

  /** A read that finds a visible unit is the first element of the drain. */
  lemma DrainVisibleStep(s: InputStream)
    requires NoUnitReadsAsEof(s.filter, s.Remaining())
    requires FirstVisible(s.filter, s.Remaining()) < |s.Remaining()|
    ensures Drain(s) == [ConsumeNext(s).1] + Drain(ConsumeNext(s).0)
  {
    ReadVisible(s);
    DrainStep(s);
  }

  /** The first visible unit is the first element of the visible code points. */
  lemma VisibleStep(f: Unit -> CodePoint, xs: seq<Unit>)
    requires FirstVisible(f, xs) < |xs|
    ensures Visible(f, xs) == [f(xs[FirstVisible(f, xs)])] + Visible(f, xs[FirstVisible(f, xs) + 1..])
  {
    VisibleFromFirst(f, xs);
  }

  /** A read that finds no visible unit ends the drain. */
  lemma DrainAtEnd(s: InputStream)
    requires FirstVisible(s.filter, s.Remaining()) == |s.Remaining()|
    ensures Drain(s) == [Eof] && Visible(s.filter, s.Remaining()) == []
  {
    DrainStep(s);
    VisibleFromFirst(s.filter, s.Remaining());
  }

  lemma ConsThenSnoc<T>(x: T, xs: seq<T>, y: T)
    ensures [x] + (xs + [y]) == ([x] + xs) + [y]
  {}

  /** A read that finds a visible unit. */
  lemma ReadVisible(s: InputStream)
    requires FirstVisible(s.filter, s.Remaining()) < |s.Remaining()|
    ensures var k := FirstVisible(s.filter, s.Remaining());
      && ConsumeNext(s).1 == s.filter(s.Remaining()[k])
      && ConsumeNext(s).0.Remaining() == s.Remaining()[k + 1..]
      && ConsumeNext(s).0.filter == s.filter
  {}

  lemma NoEofSuffix(f: Unit -> CodePoint, xs: seq<Unit>, j: nat)
    requires NoUnitReadsAsEof(f, xs) && j <= |xs|
    ensures NoUnitReadsAsEof(f, xs[j..])
  {
    forall i | 0 <= i < |xs[j..]| ensures !f(xs[j..][i]).Eof? {
      assert xs[j..][i] == xs[j + i];
    }
  }

  /** One read of the drain. */
  lemma DrainStep(s: InputStream)
    ensures Drain(s) == if ConsumeNext(s).1.Eof? then [Eof] else [ConsumeNext(s).1] + Drain(ConsumeNext(s).0)
  {}

  // ---------------------------------------------------------------------
  // Advancing while a predicate holds
  // ---------------------------------------------------------------------

  function Min(a: nat, b: nat): nat { if a <= b then a else b }

  /** The `i`-th read from `xs` when no unit is ignored: its classification, or `Eof` past the end. */
  function Nth(f: Unit -> CodePoint, xs: seq<Unit>, i: nat): CodePoint {
    if i < |xs| then f(xs[i]) else Eof
  }

  /** `result` holds the first reads from `xs`, each satisfying `p`. */
  predicate ReadsMatch(f: Unit -> CodePoint, xs: seq<Unit>, p: CodePoint -> bool, result: seq<CodePoint>) {
    forall i :: 0 <= i < |result| ==> result[i] == Nth(f, xs, i) && p(result[i])
  }

  lemma ReadsMatchSnoc(f: Unit -> CodePoint, xs: seq<Unit>, p: CodePoint -> bool, result: seq<CodePoint>, c: CodePoint)
    requires ReadsMatch(f, xs, p, result)
    requires c == Nth(f, xs, |result|) && p(c)
    ensures ReadsMatch(f, xs, p, result + [c])
  {}

  /** Every peek the advancing loop makes from position `m` on finds a unit
      that is not ignored: it peeks at `m`, and moves on to `m + 1` only when
      the code point there satisfies `p` and, with a limit `n`, only up to
      position `n + 1`. Past the units every peek finds `Eof`. */
  predicate PeeksFrom(f: Unit -> CodePoint, xs: seq<Unit>, p: CodePoint -> bool, m: nat, limit: Option<nat>)
    decreases |xs| - m
  {
    m >= |xs| || (limit.Some? && m > limit.value + 1)
    || (!f(xs[m]).Ignore? && (p(f(xs[m])) ==> PeeksFrom(f, xs, p, m + 1, limit)))
  }

  /** Some read of the advancing loop, up to and including the first `Eof`,
      fails `p`. Without a limit this is exactly when the loop ends: past the
      units every read is `Eof` again, so a `p` that accepts all of them,
      `Eof` included, keeps the loop going for ever. */
  predicate RejectsWithin(f: Unit -> CodePoint, xs: seq<Unit>, p: CodePoint -> bool) {
    exists m: nat :: m <= |xs| && !p(Nth(f, xs, m))
  }

  /** The first-found position up to the first `Eof` where a read fails `p`. */
  lemma StopPosition(f: Unit -> CodePoint, xs: seq<Unit>, p: CodePoint -> bool) returns (stop: nat)
    requires RejectsWithin(f, xs, p)
    ensures stop <= |xs| && !p(Nth(f, xs, stop))
  {
    stop :| stop <= |xs| && !p(Nth(f, xs, stop));
  }

  /** When no read up to the first `Eof` fails `p`, no read at all does. */
  lemma AcceptsEveryRead(f: Unit -> CodePoint, xs: seq<Unit>, p: CodePoint -> bool, i: nat)
    requires !RejectsWithin(f, xs, p)
    ensures p(Nth(f, xs, i))
  {
    if i > |xs| {
      assert Nth(f, xs, i) == Nth(f, xs, |xs|);
    }
  }

  /** Past the units, a turn of the advancing loop changes nothing: the peek
      finds `Eof`, the read finds `Eof` and leaves the stream where the next
      peek finds `Eof` again. So with `p(Eof)` and no limit the loop's guard
      holds for ever. */
  lemma AcceptingEofNeverStops(t: InputStream, s: InputStream, m: nat)
    requires PositionedAt(t, s, m) && m >= |s.Remaining()|
    ensures FrontNotIgnored(t) && PeekNext(t).1 == Eof
    ensures ConsumeNext(t).1 == Eof
    ensures PositionedAt(ConsumeNext(t).0, s, m + 1)
    ensures FrontNotIgnored(ConsumeNext(t).0) && PeekNext(ConsumeNext(t).0).1 == Eof
  {
    assert t.Remaining() == [];
  }

  /** No peek of the advancing loop, from the start, meets an ignored unit. */
  predicate PeeksDefined(f: Unit -> CodePoint, xs: seq<Unit>, p: CodePoint -> bool, limit: Option<nat>) {
    PeeksFrom(f, xs, p, 0, limit)
  }

  /** `t` is `s` after `m` reads, none of which skipped an ignored unit. */
  ghost predicate PositionedAt(t: InputStream, s: InputStream, m: nat) {
    var xs := s.Remaining();
    && t.Valid() && t.filter == s.filter
    && t.Remaining() == xs[Min(m, |xs|)..]
    && t.currentInput == if m == 0 then s.currentInput else if m <= |xs| then Some(xs[m - 1]) else None
  }

  /** A read at position `m`, where the unit is not ignored, is the `m`-th read. */
  lemma ConsumeStep(t: InputStream, s: InputStream, p: CodePoint -> bool, limit: Option<nat>, m: nat)
    requires PositionedAt(t, s, m)
    requires PeeksFrom(s.filter, s.Remaining(), p, m, limit)
    requires limit.None? || m <= limit.value + 1
    ensures PositionedAt(ConsumeNext(t).0, s, m + 1)
    ensures ConsumeNext(t).1 == Nth(s.filter, s.Remaining(), m)
  {
    var xs := s.Remaining();
    var ys := t.Remaining();
    if m < |xs| {
      assert ys == xs[m..] && ys[0] == xs[m];
      assert !t.filter(ys[0]).Ignore?;
      assert FirstVisible(t.filter, ys) == 0;
      assert ys[1..] == xs[m + 1..];
      assert ConsumeNext(t).0.currentInput == Some(xs[m]);
    } else {
      assert ys == [] && Min(m + 1, |xs|) == |xs|;
    }
  }

  /** A peek at position `m` sees the `m`-th read and moves nothing. */
  lemma PeekStep(t: InputStream, s: InputStream, p: CodePoint -> bool, limit: Option<nat>, m: nat)
    requires PositionedAt(t, s, m)
    requires PeeksFrom(s.filter, s.Remaining(), p, m, limit)
    requires limit.None? || m <= limit.value + 1
    ensures FrontNotIgnored(t)
    ensures PositionedAt(PeekNext(t).0, s, m)
    ensures PeekNext(t).1 == Nth(s.filter, s.Remaining(), m)
  {
    if m < |s.Remaining()| {
      assert t.Remaining()[0] == s.Remaining()[m];
    }
    ConsumeStep(t, s, p, limit, m);
  }

  /** After a read that satisfied `p`, the loop's later peeks are still defined. */
  lemma PeeksAfterRead(f: Unit -> CodePoint, xs: seq<Unit>, p: CodePoint -> bool, limit: Option<nat>, m: nat)
    requires PeeksFrom(f, xs, p, m, limit)
    requires limit.None? || m < limit.value + 1
    requires p(Nth(f, xs, m))
    ensures PeeksFrom(f, xs, p, m + 1, limit)
  {}

  /** The state of the advancing loop after `result` was read: `t` stands just
      after the reads, `next` is the code point peeked at position `|result|`,
      and the peeks from there on are defined. */
  ghost predicate Advanced(t: InputStream, s: InputStream, p: CodePoint -> bool, limit: Option<nat>, result: seq<CodePoint>, next: CodePoint) {
    && PositionedAt(t, s, |result|)
    && ReadsMatch(s.filter, s.Remaining(), p, result)
    && PeeksFrom(s.filter, s.Remaining(), p, |result|, limit)
    && next == Nth(s.filter, s.Remaining(), |result|)
  }

  /** The first peek of the advancing loop. */
  lemma StartAdvancing(s: InputStream, p: CodePoint -> bool, limit: Option<nat>)
    requires s.Valid()
    requires PeeksDefined(s.filter, s.Remaining(), p, limit)
    ensures FrontNotIgnored(s)
    ensures Advanced(PeekNext(s).0, s, p, limit, [], PeekNext(s).1)
  {
    PeekStep(s, s, p, limit, 0);
  }

  /** One turn of the advancing loop: a read at position `|result|` whose code
      point satisfies `p`, then a peek at the position after it. */
  lemma ReadThenPeek(t: InputStream, s: InputStream, p: CodePoint -> bool, limit: Option<nat>, result: seq<CodePoint>, next: CodePoint)
    requires Advanced(t, s, p, limit, result, next)
    requires limit.None? || |result| < limit.value + 1
    requires p(next)
    ensures var read := ConsumeNext(t);
      && read.1 == next
      && FrontNotIgnored(read.0)
      && Advanced(PeekNext(read.0).0, s, p, limit, result + [read.1], PeekNext(read.0).1)
  {
    var m := |result|;
    ConsumeStep(t, s, p, limit, m);
    PeeksAfterRead(s.filter, s.Remaining(), p, limit, m);
    var read := ConsumeNext(t);
    ReadsMatchSnoc(s.filter, s.Remaining(), p, result, read.1);
    PeekStep(read.0, s, p, limit, m + 1);
  }

  /** `advance_as_long_as_possible_with_limit`: reads while the next code point
      satisfies `p`, at most `n + 1` times under the limit `Some(n)` (the
      counter starts at `n + 1`). Without a limit the loop ends exactly when
      some read up to the first `Eof` fails `p`. */
  method AdvanceAsLongAsPossibleWithLimit(s: InputStream, p: CodePoint -> bool, limit: Option<nat>)
    returns (s': InputStream, result: seq<CodePoint>)
    requires s.Valid()
    requires PeeksDefined(s.filter, s.Remaining(), p, limit)
    requires limit.None? ==> RejectsWithin(s.filter, s.Remaining(), p)
    ensures limit.Some? ==> |result| <= limit.value + 1
    ensures limit.None? ==> |result| <= |s.Remaining()|
    ensures forall i :: 0 <= i < |result| ==> result[i] == Nth(s.filter, s.Remaining(), i) && p(result[i])
    ensures (limit.Some? && |result| == limit.value + 1) || !p(Nth(s.filter, s.Remaining(), |result|))
    ensures PositionedAt(s', s, |result|)
  {
    var xs := s.Remaining();
    var f := s.filter;
    var limitLeft: nat := if limit.Some? then limit.value + 1 else 0;
    s' := s;
    result := [];
    StartAdvancing(s, p, limit);
    var peeked := PeekNext(s');
    s' := peeked.0;
    var next := peeked.1;
    // The loop never reads past `stop`: the limit, or a read that fails `p`.
    ghost var stop: nat;
    if limit.Some? {
      stop := limit.value + 1;
    } else {
      stop := StopPosition(f, xs, p);
    }
    while p(next) && (limitLeft > 0 || limit.None?)
      invariant Advanced(s', s, p, limit, result, next)
      invariant limit.Some? ==> limitLeft + |result| == stop
      invariant |result| <= stop
      decreases stop - |result|
    {
      ReadThenPeek(s', s, p, limit, result, next);
      var consumed := ConsumeNext(s');
      peeked := PeekNext(consumed.0);
      s', next := peeked.0, peeked.1;
      result := result + [consumed.1];
      if limit.Some? {
        limitLeft := limitLeft - 1;
      }
    }
  }

  /** `advance_as_long_as_possible`: the same loop with no limit. */
  method AdvanceAsLongAsPossible(s: InputStream, p: CodePoint -> bool)
    returns (s': InputStream, result: seq<CodePoint>)
    requires s.Valid()
    requires PeeksDefined(s.filter, s.Remaining(), p, None)
    requires RejectsWithin(s.filter, s.Remaining(), p)
    ensures |result| <= |s.Remaining()|
    ensures forall i :: 0 <= i < |result| ==> result[i] == s.filter(s.Remaining()[i]) && p(result[i])
    ensures !p(Nth(s.filter, s.Remaining(), |result|))
    ensures PositionedAt(s', s, |result|)
  {
    s', result := AdvanceAsLongAsPossibleWithLimit(s, p, None);
  }

  /** `advance_as_long_as_possible_and_apply`: the unlimited loop, calling the
      callback on each code point read, in order. The callback's effect is
      modelled as a fold over an accumulator. */
  method AdvanceAsLongAsPossibleAndApply<A>(s: InputStream, p: CodePoint -> bool, callback: (A, CodePoint) -> A, acc: A)
    returns (s': InputStream, result: seq<CodePoint>, acc': A)
    requires s.Valid()
    requires PeeksDefined(s.filter, s.Remaining(), p, None)
    requires RejectsWithin(s.filter, s.Remaining(), p)
    ensures |result| <= |s.Remaining()|
    ensures forall i :: 0 <= i < |result| ==> result[i] == Nth(s.filter, s.Remaining(), i) && p(result[i])
    ensures !p(Nth(s.filter, s.Remaining(), |result|))
    ensures PositionedAt(s', s, |result|)
    ensures acc' == Text.FoldLeft(callback, acc, result)
  {
    var xs := s.Remaining();
    var f := s.filter;
    s' := s;
    result := [];
    acc' := acc;
    StartAdvancing(s, p, None);
    var peeked := PeekNext(s');
    s' := peeked.0;
    var next := peeked.1;
    ghost var stop := StopPosition(f, xs, p);
    while p(next)
      invariant Advanced(s', s, p, None, result, next)
      invariant |result| <= stop
      invariant acc' == Text.FoldLeft(callback, acc, result)
      decreases stop - |result|
    {
      ReadThenPeek(s', s, p, None, result, next);
      var consumed := ConsumeNext(s');
      peeked := PeekNext(consumed.0);
      s', next := peeked.0, peeked.1;
      Text.FoldLeftSnoc(callback, acc, result, consumed.1);
      acc' := callback(acc', consumed.1);
      result := result + [consumed.1];
    }
  }
}
