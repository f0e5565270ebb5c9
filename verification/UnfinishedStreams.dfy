/** What a stream that has not ended yet amounts to: the beginning of well-formed requests. */
module UnfinishedStreams {
  import opened Wrappers
  import opened Bytes
  import opened StreamRewriter
  import opened Fragmentation
  import opened MessageGrammar
  import opened StreamLaws

  /** The line that announces the last chunk. */
  const ZERO: bytes := "0"

  /** The end of a chunked body. */
  const LAST_CHUNK: bytes := ZERO + CRLF + CRLF

  function Filler(n: nat): (r: bytes)
    ensures |r| == n
  {
    seq(n, i => 'x')
  }

  /** Bytes that bring the request in progress to its end. */
  function Ending(s: State): bytes {
    match s.mode
    case Fixed => Filler(s.remaining)
    case ChunkSize => LAST_CHUNK
    case ChunkData => Filler(s.remaining) + (CRLF + LAST_CHUNK)
    case ChunkCrlf => CRLF + LAST_CHUNK
    case ChunkTrailers => CRLF
    case _ => []
  }

  /** There is room for the line that ends the trailers, if trailers are being read. */
  predicate CanEnd(s: State) {
    s.mode == ChunkTrailers ==> s.trailerBytes + 2 <= MAX_HEADER_BYTES
  }

  /** From `s`, with nothing pending, the bytes `more` are copied and the stream may end there. */
  predicate EndsWith(key: bytes, s: State, more: bytes)
    requires Valid(s)
  {
    var r := Run(key, s.(pending := more));
    r.Done? && r.out == more && Finishes(r.state)
  }

  lemma EndsHere(key: bytes, s: State)
    requires Valid(s) && Finishes(s) && s.pending == []
    ensures EndsWith(key, s, [])
  {
    assert s.(pending := []) == s;
  }

  /** One more piece in front of an ending. */
  lemma EndsAfter(key: bytes, s: State, out: bytes, next: State, more: bytes)
    requires Valid(s) && Valid(next) && EndsWith(key, next, more)
    requires Passes(key, s.(pending := out + more), out, next.(pending := more), true)
    ensures EndsWith(key, s, out + more)
  {
  }

  lemma EndsInTrailers(key: bytes, s: State)
    requires Valid(s) && s.mode == ChunkTrailers && CanEnd(s)
    ensures EndsWith(key, s, CRLF)
  {
    assert CRLF + [] == CRLF;
    RunTrailersEnd(key, s.(pending := CRLF), []);
    EndsHere(key, AfterTrailers(s, []));
    EndsAfter(key, s, CRLF, AfterTrailers(s, []), []);
  }

  lemma EndsWithLastChunk(key: bytes, s: State)
    requires s.mode == ChunkSize
    ensures EndsWith(key, s, LAST_CHUNK)
  {
    var t := s.(pending := LAST_CHUNK);
    ZeroIsZero();
    FindLine(ZERO, CRLF);
    LineSlices(ZERO, CRLF);
    SizeTaken(t, 1, Some(0));
    var next := AfterSize(t, 1, 0);
    PassesStep(key, t, ZERO + CRLF, next, true);
    EndsInTrailers(key, next);
    EndsAfter(key, s, ZERO + CRLF, next, CRLF);
  }

  lemma ZeroIsZero()
    ensures SizeOf(ZERO) == Some(0) && Find(ZERO, CRLF) < 0
  {
    FindAbsent(ZERO, ';', ";");
    FindAbsent(ZERO, '\r', CRLF);
    StripTrimmed(ZERO);
    assert ZERO[..0] == [];
    assert HexadecimalValue(ZERO) == 0;
  }

  lemma EndsAfterData(key: bytes, s: State)
    requires s.mode == ChunkCrlf
    ensures EndsWith(key, s, CRLF + LAST_CHUNK)
  {
    var t, next := s.(pending := CRLF + LAST_CHUNK), s.(mode := ChunkSize);
    assert t.pending[..2] == CRLF && t.pending[2..] == LAST_CHUNK;
    PassesStep(key, t, CRLF, next.(pending := LAST_CHUNK), true);
    EndsWithLastChunk(key, next);
    EndsAfter(key, s, CRLF, next, LAST_CHUNK);
  }

  lemma EndsAfterCopy(key: bytes, s: State, finished: Mode, more: bytes)
    requires Valid(s) && s.mode in {Fixed, ChunkData}
    requires finished == if s.mode == Fixed then Finished(s.closeAfter) else ChunkCrlf
    requires EndsWith(key, s.(remaining := 0, mode := finished), more)
    ensures EndsWith(key, s, Filler(s.remaining) + more)
  {
    var data := Filler(s.remaining);
    RunCopy(key, s.(pending := data + more), data, more, finished);
    EndsAfter(key, s, data, s.(remaining := 0, mode := finished), more);
  }

  /** Every parser with nothing pending can be brought to an end, unless its trailers have used up their room. */
  lemma EndingEnds(key: bytes, s: State)
    requires Valid(s) && s.pending == [] && CanEnd(s)
    ensures EndsWith(key, s, Ending(s))
  {
    match s.mode {
      case Fixed =>
        var next := s.(remaining := 0, mode := Finished(s.closeAfter));
        EndsHere(key, next);
        EndsAfterCopy(key, s, Finished(s.closeAfter), []);
        assert Ending(s) + [] == Ending(s);
      case ChunkSize => EndsWithLastChunk(key, s);
      case ChunkData =>
        EndsAfterData(key, s.(remaining := 0, mode := ChunkCrlf));
        EndsAfterCopy(key, s, ChunkCrlf, CRLF + LAST_CHUNK);
      case ChunkCrlf => EndsAfterData(key, s);
      case ChunkTrailers => EndsInTrailers(key, s);
      case _ => EndsHere(key, s);
    }
  }

  /** Trailers that have used up their room cannot be brought to an end at all. */
  lemma NoEnd(key: bytes, s: State, more: bytes)
    requires Valid(s) && s.mode == ChunkTrailers && !CanEnd(s)
    ensures !Complete(key, s.(pending := more))
  {
    if Complete(key, s.(pending := more)) {
      TrailerTurn(key, s.(pending := more));
      assert false;
    }
  }

  // ---------------------------------------------------------------- streams

  /** With some more bytes behind them, these are well-formed requests, of which so much is forwarded so far. */
  ghost predicate Begins(key: bytes, data: bytes, out: bytes) {
    exists more :: Specified(key, data + more, out + more)
  }

  /**
   * Whatever calls have returned, the bytes they consumed begin a sequence of well-formed requests whose bodies go
   * on as bytes copied, and what they emitted is what the specification makes of these bytes. The one exception:
   * trailers that have used up their room, which nothing can end.
   */
  lemma UnfinishedStream(key: bytes, chunks: seq<bytes>)
    requires FeedAll(key, INITIAL, chunks).Done?
    ensures var r := FeedAll(key, INITIAL, chunks);
            var data := Concat(chunks);
            var n := |data| - |r.state.pending|;
            && n >= 0 && r.state.pending == data[n..]
            && (Begins(key, data[..n], r.out) <==> CanEnd(r.state))
  {
    FragmentsAreOneFeed(key, INITIAL, chunks);
    FeedFromNothing(key, INITIAL, Concat(chunks));
    UnfinishedRun(key, Concat(chunks));
  }

  lemma UnfinishedRun(key: bytes, data: bytes)
    requires Run(key, At(data, Head, false)).Done?
    ensures var r := Run(key, At(data, Head, false));
            var n := |data| - |r.state.pending|;
            && n >= 0 && r.state.pending == data[n..]
            && (Begins(key, data[..n], r.out) <==> CanEnd(r.state))
  {
    var start := At(data, Head, false);
    var r := Run(key, start);
    LeavesASuffix(key, start);
    var n := |data| - |r.state.pending|;
    RunConsumes(key, start, n);
    ConsumedBegins(key, data[..n], r.out, Cut(r.state, 0));
  }

  lemma ConsumedBegins(key: bytes, data: bytes, out: bytes, s: State)
    requires Valid(s) && s.pending == [] && Run(key, At(data, Head, false)) == Done(s, out)
    ensures Begins(key, data, out) <==> CanEnd(s)
  {
    if CanEnd(s) {
      EndingEnds(key, s);
      GoesOn(key, data, out, s, Ending(s));
      WholeStream(key, data + Ending(s), out + Ending(s));
    }
    if more :| Specified(key, data + more, out + more) {
      GoesOn(key, data, out, s, more);
      WholeStream(key, data + more, out + more);
      if !CanEnd(s) {
        NoEnd(key, s, more);
        assert false;
      }
    }
  }

  /** A stream goes on from where its beginning has left the parser. */
  lemma GoesOn(key: bytes, data: bytes, out: bytes, s: State, more: bytes)
    requires Valid(s) && s.pending == [] && Run(key, At(data, Head, false)) == Done(s, out)
    ensures FeedAll(key, INITIAL, [data + more]) == Prepend(out, Run(key, s.(pending := more)))
  {
    FeedFromNothing(key, INITIAL, data);
    FeedFromNothing(key, s, more);
    FeedTwice(key, INITIAL, data, more);
    SingleFeed(key, data + more);
  }

  lemma FeedFromNothing(key: bytes, s: State, data: bytes)
    requires Valid(s) && s.pending == []
    ensures FeedOnce(key, s, data) == Run(key, s.(pending := data))
  {
    assert [] + data == data;
  }
}
