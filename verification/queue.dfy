/** The lookahead queue over a finite source.

    The source iterator is modelled as the sequence `rest` of items it has not
    yet produced; `buffer` holds the items already pulled from it for
    lookahead but not yet delivered. Every contract is stated over
    `Pending() == buffer + rest`, the items still to be delivered, in order.
    Each operation returns the new queue together with its result. */
module Queues {
  import opened Wrappers

  datatype Queue<T> = Queue(buffer: seq<T>, rest: seq<T>, offset: nat) {
    function Pending(): seq<T> { buffer + rest }
  }

  /** The item at position `i` of `xs`, if there is one. */
  function At<T>(xs: seq<T>, i: nat): Option<T> {
    if i < |xs| then Some(xs[i]) else None
  }

  /** `Queue::new`: nothing buffered, offset 0. */
  function New<T>(source: seq<T>): (q: Queue<T>)
    ensures q.Pending() == source && q.offset == 0
  {
    Queue([], source, 0)
  }

  /** `decrement`: the lookahead offset, saturating at 0. */
  function Decrement<T>(q: Queue<T>): (r: Queue<T>)
    ensures r.buffer == q.buffer && r.rest == q.rest
    ensures r.offset == if q.offset == 0 then 0 else q.offset - 1
  {
    q.(offset := if q.offset == 0 then 0 else q.offset - 1)
  }

  /** `dequeue`: pops the front of the buffer; `None`, and no change, when the buffer is empty. */
  function Dequeue<T>(q: Queue<T>): (r: (Queue<T>, Option<T>))
    ensures r.1.None? <==> |q.buffer| == 0
    ensures r.1.None? ==> r.0 == q
    ensures r.1.Some? ==> r.1.value == q.buffer[0] && r.0.buffer == q.buffer[1..]
    ensures r.0.rest == q.rest && r.0.offset == q.offset
    ensures r.1.Some? ==> q.Pending() == [r.1.value] + r.0.Pending()
  {
    if |q.buffer| == 0 then (q, None)
    else (q.(buffer := q.buffer[1..]), Some(q.buffer[0]))
  }

  /** `enqueue`: moves the next source item to the back of the buffer, if there is one. */
  function Enqueue<T>(q: Queue<T>): (r: Queue<T>)
    ensures r.Pending() == q.Pending() && r.offset == q.offset
    ensures |r.buffer| == if |q.rest| == 0 then |q.buffer| else |q.buffer| + 1
  {
    if |q.rest| == 0 then q
    else q.(buffer := q.buffer + [q.rest[0]], rest := q.rest[1..])
  }

  /** `count` successive calls of `enqueue`. */
  function EnqueueTimes<T>(q: Queue<T>, count: nat): (r: Queue<T>)
    ensures r.Pending() == q.Pending() && r.offset == q.offset
    ensures |r.buffer| == if |q.buffer| + count <= |q.Pending()| then |q.buffer| + count else |q.Pending()|
    decreases count
  {
    if count == 0 then q else EnqueueTimes(Enqueue(q), count - 1)
  }

  /** `fill(required)`: when at most `required` items are buffered, enqueues
      `required - |buffer| + 1` times, so that position `required` is
      buffered whenever the source still has it. */
  function Fill<T>(q: Queue<T>, required: nat): (r: Queue<T>)
    ensures r.Pending() == q.Pending() && r.offset == q.offset
    ensures |q.buffer| <= required ==> |r.buffer| == if required < |q.Pending()| then required + 1 else |q.Pending()|
    ensures required < |q.buffer| ==> r == q
  {
    if |q.buffer| <= required then EnqueueTimes(q, required - |q.buffer| + 1) else q
  }

  /** `peek_next`: the pending item at the lookahead offset, without delivering anything. */
  function PeekNext<T>(q: Queue<T>): (r: (Queue<T>, Option<T>))
    ensures r.0.Pending() == q.Pending() && r.0.offset == q.offset
    ensures r.1 == At(q.Pending(), q.offset)
  {
    var filled := Fill(q, q.offset);
    assert filled.Pending()[..|filled.buffer|] == filled.buffer;
    (filled, if q.offset < |filled.buffer| then Some(filled.buffer[q.offset]) else None)
  }

  /** `Iterator::next`: the buffer first, then the source; always decrements the offset. */
  function Next<T>(q: Queue<T>): (r: (Queue<T>, Option<T>))
    ensures r.1 == At(q.Pending(), 0)
    ensures r.0.Pending() == if |q.Pending()| == 0 then [] else q.Pending()[1..]
    ensures r.0.offset == if q.offset == 0 then 0 else q.offset - 1
  {
    if |q.buffer| == 0 then
      var taken := if |q.rest| == 0 then None else Some(q.rest[0]);
      var after := if |q.rest| == 0 then q else q.(rest := q.rest[1..]);
      (Decrement(after), taken)
    else
      var (after, taken) := Dequeue(q);
      assert q.Pending()[1..] == after.Pending();
      (Decrement(after), taken)
  }

  /** `reconsume`: puts a previously delivered item back at the front. Panics on `None`. */
  function Reconsume<T>(q: Queue<T>, lastConsumed: Option<T>): (r: Queue<T>)
    requires lastConsumed.Some?
    ensures r.Pending() == [lastConsumed.value] + q.Pending()
    ensures r.offset == q.offset
  {
    q.(buffer := [lastConsumed.value] + q.buffer)
  }

  // ---------------------------------------------------------------------
  // Properties
  // ---------------------------------------------------------------------

  /** The offset starts at 0 and is only ever decremented, so peeking always
      looks at the front of the pending items. */
  lemma OffsetStaysZero<T>(q: Queue<T>, x: T)
    requires q.offset == 0
    ensures PeekNext(q).0.offset == 0 && Next(q).0.offset == 0
    ensures Reconsume(q, Some(x)).offset == 0
    ensures PeekNext(q).1 == Next(q).1
  {}

  /** A reconsumed item is what the next peek and the next `next` return. */
  lemma ReconsumeThenNext<T>(q: Queue<T>, x: T)
    requires q.offset == 0
    ensures PeekNext(Reconsume(q, Some(x))).1 == Some(x)
    ensures Next(Reconsume(q, Some(x))).1 == Some(x)
    ensures Next(Reconsume(q, Some(x))).0.Pending() == q.Pending()
  {}

  /** A caller's interleaving of peeks and takes. */
  datatype Op = Peek | Take

  function CountTakes(ops: seq<Op>): nat {
    if ops == [] then 0 else (if ops[0] == Take then 1 else 0) + CountTakes(ops[1..])
  }

  /** Runs `ops` and collects what each `Take` returned. */
  function Run<T>(q: Queue<T>, ops: seq<Op>): (Queue<T>, seq<Option<T>>)
    decreases |ops|
  {
    if ops == [] then (q, [])
    else if ops[0] == Peek then Run(PeekNext(q).0, ops[1..])
    else
      var (q', x) := Next(q);
      var (q'', xs) := Run(q', ops[1..]);
      (q'', [x] + xs)
  }

  /** The first `k` deliveries from `xs`: its items in order, then `None`. */
  function Deliveries<T>(xs: seq<T>, k: nat): (r: seq<Option<T>>)
    ensures |r| == k
    ensures forall i :: 0 <= i < k ==> r[i] == At(xs, i)
  {
    seq(k, i requires 0 <= i < k => At(xs, i))
  }

  /** Whatever the interleaving of peeks, the takes deliver the pending items in
      order, with no skip and no duplicate, and `None` once they run out. */
  lemma {:induction false} RunDeliversInOrder<T>(q: Queue<T>, ops: seq<Op>)
    requires q.offset == 0
    ensures Run(q, ops).1 == Deliveries(q.Pending(), CountTakes(ops))
    ensures Run(q, ops).0.offset == 0
    ensures Run(q, ops).0.Pending() == if CountTakes(ops) <= |q.Pending()| then q.Pending()[CountTakes(ops)..] else []
    decreases |ops|
  {
    if ops != [] {
      var xs := q.Pending();
      if ops[0] == Peek {
        RunDeliversInOrder(PeekNext(q).0, ops[1..]);
      } else {
        var (q', x) := Next(q);
        RunDeliversInOrder(q', ops[1..]);
        var k := CountTakes(ops[1..]);
        var tail := Deliveries(q'.Pending(), k);
        assert Run(q, ops).1 == [x] + tail;
        forall i | 0 <= i < k + 1
          ensures ([x] + tail)[i] == At(xs, i)
        {
          if i > 0 {
            assert tail[i - 1] == At(q'.Pending(), i - 1);
          }
        }
      }
    }
  }
}
