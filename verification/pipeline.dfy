/** The two streams together: a token stream collected from an input
    stream's reads holds the stream's visible code points, in order. */
module StreamPipeline {
  import opened Wrappers
  import opened CodePoints
  import StreamIterators
  import InputStreams
  import TokenStreams

  type Read = Result<CodePoint, StreamIterators.InputStreamError>

  function AsReads(cps: seq<CodePoint>): (r: seq<Read>)
    ensures |r| == |cps| && forall i :: 0 <= i < |cps| ==> r[i] == Ok(cps[i])
  {
    if cps == [] then [] else [Ok(cps[0])] + AsReads(cps[1..])
  }

  /** Successful reads of ordinary code points followed by `Eof`: collecting
      them keeps every read before the `Eof`. */
  lemma {:induction false} CollectOrdinary(cps: seq<CodePoint>)
    requires forall i :: 0 <= i < |cps| ==> !cps[i].Eof? && !cps[i].Ignore?
    ensures TokenStreams.ReachesEof(AsReads(cps + [Eof]), StreamIterators.IsEof)
    ensures TokenStreams.Collected(AsReads(cps + [Eof]), StreamIterators.IsEof, StreamIterators.IsIgnored) == AsReads(cps)
  {
    var items := AsReads(cps + [Eof]);
    if cps == [] {
      assert items[0] == Ok(Eof);
    } else {
      var tail := cps[1..];
      assert (cps + [Eof])[1..] == tail + [Eof];
      forall i | 0 <= i < |tail| ensures !tail[i].Eof? && !tail[i].Ignore? {
        assert tail[i] == cps[i + 1];
      }
      CollectOrdinary(tail);
      assert items[1..] == AsReads(tail + [Eof]);
      assert items[0] == Ok(cps[0]) && !StreamIterators.IsEof(cps[0]) && !StreamIterators.IsIgnored(cps[0]);
      assert TokenStreams.ReachesEof(items, StreamIterators.IsEof);
      assert TokenStreams.Collected(items, StreamIterators.IsEof, StreamIterators.IsIgnored)
        == [items[0]] + TokenStreams.Collected(items[1..], StreamIterators.IsEof, StreamIterators.IsIgnored);
    }
  }

  /** A filter that yields `Eof` for no unit yields no `Eof` among the visible code points. */
  lemma {:induction false} VisibleHasNoEof(f: Unit -> CodePoint, xs: seq<Unit>)
    requires InputStreams.NoUnitReadsAsEof(f, xs)
    ensures forall i :: 0 <= i < |InputStreams.Visible(f, xs)| ==> !InputStreams.Visible(f, xs)[i].Eof?
  {
    if xs != [] {
      InputStreams.NoEofSuffix(f, xs, 1);
      VisibleHasNoEof(f, xs[1..]);
    }
  }

  /** `TokenStream::from_stream` over an input stream whose filter never
      yields `Eof`: the token list is the visible code points as successes,
      in order, with nothing operated on and nothing recycled. */
  lemma TokensOfInput(s: InputStreams.InputStream)
    requires InputStreams.NoUnitReadsAsEof(s.filter, s.Remaining())
    ensures TokenStreams.ReachesEof(AsReads(InputStreams.Drain(s)), StreamIterators.IsEof)
    ensures TokenStreams.FromStream(AsReads(InputStreams.Drain(s)), StreamIterators.IsEof, StreamIterators.IsIgnored).tokens
      == AsReads(InputStreams.Visible(s.filter, s.Remaining()))
  {
    InputStreams.DrainIsVisible(s);
    VisibleHasNoEof(s.filter, s.Remaining());
    CollectOrdinary(InputStreams.Visible(s.filter, s.Remaining()));
  }
}
