/** The laws of the rewriter on whole streams. */
module StreamLaws {
  import opened Wrappers
  import opened Bytes
  import opened RequestHead
  import opened HeadLaws
  import opened StreamRewriter
  import opened Fragmentation
  import opened MessageGrammar

  /** Feeding these chunks and then finishing returns, having emitted `out`. */
  predicate Accepts(key: bytes, chunks: seq<bytes>, out: bytes) {
    var r := FeedAll(key, INITIAL, chunks);
    r.Done? && r.out == out && Finishes(r.state)
  }

  /** The stream is a sequence of well-formed requests, and `out` is what the specification makes of them. */
  ghost predicate Specified(key: bytes, data: bytes, out: bytes) {
    exists messages :: GoodStream(key, messages) && Wire(messages) == data && Forwarded(key, messages) == out
  }

  lemma WholeStream(key: bytes, data: bytes, out: bytes)
    ensures Accepts(key, [data], out) <==> Specified(key, data, out)
  {
    var start := At(data, Head, false);
    assert With(INITIAL, data) == start by { assert [] + data == data; }
    var r := Run(key, start);
    SingleFeed(key, data);
    if Accepts(key, [data], out) {
      var messages := AcceptedStreamIsGood(key, data);
      GoodStreamIsForwarded(key, messages);
      assert GoodStream(key, messages) && Wire(messages) == data && Forwarded(key, messages) == out;
    }
    if Specified(key, data, out) {
      var messages :| GoodStream(key, messages) && Wire(messages) == data && Forwarded(key, messages) == out;
      GoodStreamIsForwarded(key, messages);
    }
  }

  lemma SingleFeed(key: bytes, data: bytes)
    ensures FeedAll(key, INITIAL, [data]) == FeedOnce(key, INITIAL, data)
  {
    var r := FeedOnce(key, INITIAL, data);
    assert [data][1..] == [];
    if r.Done? {
      assert FeedAll(key, r.state, []) == Done(r.state, []);
      assert r.out + [] == r.out;
    }
  }

  /**
   * The rewriter meets its specification. Fed in one piece, a stream is accepted with output `out` if and only
   * if it is a sequence of well-formed requests and `out` is those requests with their heads rewritten and
   * their bodies, chunks and trailers unchanged. Fed in pieces, it is accepted only in that case, with the
   * same output, and always if its chunk-size lines are short besides.
   */
  lemma AcceptsWhatIsSpecified(key: bytes, chunks: seq<bytes>, out: bytes)
    ensures Accepts(key, [Concat(chunks)], out) <==> Specified(key, Concat(chunks), out)
    ensures Accepts(key, chunks, out) ==> Specified(key, Concat(chunks), out)
    ensures forall messages ::
              GoodStream(key, messages) && ShortStream(messages)
              && Wire(messages) == Concat(chunks) && Forwarded(key, messages) == out ==>
                Accepts(key, chunks, out)
  {
    var data := Concat(chunks);
    WholeStream(key, data, out);
    SingleFeed(key, data);
    if FeedAll(key, INITIAL, chunks).Done? {
      FragmentsAreOneFeed(key, INITIAL, chunks);
    }
    forall messages | GoodStream(key, messages) && ShortStream(messages)
                      && Wire(messages) == data && Forwarded(key, messages) == out
      ensures Accepts(key, chunks, out)
    {
      EveryCuttingIsAccepted(key, messages);
    }
  }

  /** All cuttings of a stream are accepted, with the specified output. */
  ghost predicate AcceptsEveryCutting(key: bytes, data: bytes, out: bytes) {
    forall chunks :: Concat(chunks) == data ==> Accepts(key, chunks, out)
  }

  /**
   * Exactly which streams of well-formed requests are accepted however they are cut: those whose chunk-size lines,
   * those of the last chunks included, are all shorter than the limit.
   */
  lemma EveryCuttingIsAccepted(key: bytes, messages: seq<Message>)
    requires GoodStream(key, messages)
    ensures AcceptsEveryCutting(key, Wire(messages), Forwarded(key, messages)) <==> ShortStream(messages)
  {
    var data, out := Wire(messages), Forwarded(key, messages);
    GoodStreamIsForwarded(key, messages);
    assert With(INITIAL, data) == At(data, Head, false) by { assert [] + data == data; }
    EveryFragmentationReturns(key, INITIAL, data);
    if ShortStream(messages) {
      forall chunks | Concat(chunks) == data ensures Accepts(key, chunks, out) {
        FragmentsAreOneFeed(key, INITIAL, chunks);
      }
    }
    if AcceptsEveryCutting(key, data, out) {
      forall chunks | Concat(chunks) == data ensures FeedAll(key, INITIAL, chunks).Done? {
        assert Accepts(key, chunks, out);
      }
    }
  }

  // ---------------------------------------------------------------- a second rewriter changes nothing

  /** The requests as they leave the rewriter. */
  function RewrittenMessages(key: bytes, messages: seq<Message>): seq<Message> {
    if messages == [] then []
    else
      var r := Rewrite(messages[0].head, key);
      [Message(if r.Ok? then r.value.rewritten else [], messages[0].body)] + RewrittenMessages(key, messages[1..])
  }

  predicate RewrittenHeadsFit(key: bytes, messages: seq<Message>) {
    forall i :: 0 <= i < |messages| ==> RewrittenHeadFits(key, messages[i])
  }

  predicate RewrittenHeadFits(key: bytes, m: Message) {
    var r := Rewrite(m.head, key);
    r.Ok? ==> |r.value.rewritten| <= MAX_HEADER_BYTES
  }

  lemma {:induction false} RewrittenWire(key: bytes, messages: seq<Message>)
    ensures Wire(RewrittenMessages(key, messages)) == Forwarded(key, messages)
  {
    if messages != [] {
      RewrittenWire(key, messages[1..]);
      assert RewrittenMessages(key, messages)[1..] == RewrittenMessages(key, messages[1..]);
    }
  }

  lemma RewrittenMessage(key: bytes, m: Message)
    requires ValidKey(key) && GoodMessage(key, m)
    ensures var f := Rewrite(m.head, key).value;
            && Rewrite(f.rewritten, key) == Ok(f)
            && (|f.rewritten| <= MAX_HEADER_BYTES ==> GoodMessage(key, Message(f.rewritten, m.body)))
  {
    RewriteIsFixedPoint(m.head, key);
    RewriteGrowth(Rewrite(m.head, key).value.rewritten, key);
  }

  lemma {:induction false} RewrittenStream(key: bytes, messages: seq<Message>)
    requires ValidKey(key) && GoodStream(key, messages) && RewrittenHeadsFit(key, messages)
    ensures GoodStream(key, RewrittenMessages(key, messages))
    ensures Forwarded(key, RewrittenMessages(key, messages)) == Forwarded(key, messages)
  {
    if messages != [] {
      var m, rest := messages[0], messages[1..];
      assert forall i :: 0 <= i < |rest| ==> rest[i] == messages[i + 1];
      RewrittenMessage(key, m);
      RewrittenStream(key, rest);
      var next := RewrittenMessages(key, messages);
      assert next[1..] == RewrittenMessages(key, rest);
      assert next[0] == Message(Rewrite(m.head, key).value.rewritten, m.body);
    }
  }

  /** A rewritten head over the limit is refused by the second rewriter. */
  lemma {:induction false} LongRewrittenHeadIsRefused(key: bytes, messages: seq<Message>)
    requires ValidKey(key) && GoodStream(key, messages) && !RewrittenHeadsFit(key, messages)
    ensures Run(key, At(Forwarded(key, messages), Head, false)).Failed?
  {
    var m, rest := messages[0], messages[1..];
    var f := Rewrite(m.head, key).value;
    var after := Forwarded(key, rest);
    RewrittenMessage(key, m);
    RewriteIsFixedPoint(m.head, key);
    if |f.rewritten| > MAX_HEADER_BYTES {
      LongHeadRefused(key, f.rewritten, WireBody(m.body) + after);
    } else {
      TooLongLater(key, messages);
      LongRewrittenHeadIsRefused(key, rest);
      LaterRefusal(key, Message(f.rewritten, m.body), f, after);
    }
  }

  lemma LongHeadRefused(key: bytes, head: bytes, rest: bytes)
    requires |head| > MAX_HEADER_BYTES && Find(head, CRLFCRLF) == |head| - 4
    ensures Run(key, At(head + rest, Head, false)).Failed?
  {
    FindExtend(head, rest, CRLFCRLF);
    assert HeadStep(key, At(head + rest, Head, false)).Raise?;
  }

  lemma TooLongLater(key: bytes, messages: seq<Message>)
    requires messages != [] && !RewrittenHeadsFit(key, messages)
    requires Rewrite(messages[0].head, key).Ok? && |Rewrite(messages[0].head, key).value.rewritten| <= MAX_HEADER_BYTES
    ensures messages[1..] != [] && !RewrittenHeadsFit(key, messages[1..])
  {
    var i :| 0 <= i < |messages| && !RewrittenHeadFits(key, messages[i]);
    assert i > 0 && messages[1..][i - 1] == messages[i];
  }

  lemma LaterRefusal(key: bytes, m: Message, f: Framed, rest: bytes)
    requires GoodMessage(key, m) && Rewrite(m.head, key) == Ok(f) && !IsLast(f)
    requires Run(key, At(rest, Head, false)).Failed?
    ensures Run(key, At(m.head + (WireBody(m.body) + rest), Head, false)).Failed?
  {
    RunMessage(key, m, rest);
    assert AfterMessage(f, rest) == At(rest, Head, false);
  }

  /**
   * Rewriting a stream is a fixed point: what one rewriter emits for an accepted stream, a second rewriter with
   * the same key accepts and emits byte for byte, if and only if every rewritten head is within the head limit.
   */
  lemma SecondRewriterChangesNothing(key: bytes, messages: seq<Message>)
    requires ValidKey(key) && GoodStream(key, messages)
    ensures Accepts(key, [Wire(messages)], Forwarded(key, messages))
    ensures Accepts(key, [Forwarded(key, messages)], Forwarded(key, messages)) <==> RewrittenHeadsFit(key, messages)
  {
    var out := Forwarded(key, messages);
    WholeStream(key, Wire(messages), out);
    if RewrittenHeadsFit(key, messages) {
      RewrittenWire(key, messages);
      RewrittenStream(key, messages);
      WholeStream(key, out, out);
    } else {
      LongRewrittenHeadIsRefused(key, messages);
      SingleFeed(key, out);
      assert INITIAL.pending + out == out;
    }
  }

  // ---------------------------------------------------------------- unfinished streams

  /** A stretch of input the parser has dealt with. */
  datatype Piece = HeadPiece(head: bytes) | CopiedPiece(data: bytes)

  function InputPiece(p: Piece): bytes {
    match p case HeadPiece(h) => h case CopiedPiece(d) => d
  }

  function OutputPiece(key: bytes, p: Piece): bytes {
    match p
    case HeadPiece(h) => (var r := Rewrite(h, key); if r.Ok? then r.value.rewritten else [])
    case CopiedPiece(d) => d
  }

  function InputOf(pieces: seq<Piece>): bytes {
    if pieces == [] then [] else InputPiece(pieces[0]) + InputOf(pieces[1..])
  }

  function OutputOf(key: bytes, pieces: seq<Piece>): bytes {
    if pieces == [] then [] else OutputPiece(key, pieces[0]) + OutputOf(key, pieces[1..])
  }

  /**
   * At any point of any stream, finished or not: what was fed is accepted heads and copied bytes followed by
   * what is still pending, and what was emitted is the same sequence with the heads rewritten.
   */
  lemma {:induction false} OutputFollowsInput(key: bytes, s: State) returns (pieces: seq<Piece>)
    requires Valid(s) && Run(key, s).Done?
    ensures s.pending == InputOf(pieces) + Run(key, s).state.pending
    ensures Run(key, s).out == OutputOf(key, pieces)
    ensures forall p :: p in pieces && p.HeadPiece? ==> Rewrite(p.head, key).Ok? && |p.head| <= MAX_HEADER_BYTES
    decreases |s.pending|
  {
    if s.pending == [] || Step(key, s) == Wait {
      pieces := [];
      assert s.pending == [] + s.pending;
    } else {
      StepProgress(key, s);
      var next := Step(key, s).next;
      var rest := OutputFollowsInput(key, next);
      var first := FirstPiece(key, s, next);
      pieces := [first] + rest;
      RunUnfolds(key, s, next, Step(key, s).out);
      PieceBefore(key, first, rest);
      ConcatAssociates(InputPiece(first), InputOf(rest), Run(key, next).state.pending);
    }
  }

  /** What one turn took from the front of the pending bytes, and what it emitted for that. */
  lemma FirstPiece(key: bytes, s: State, next: State) returns (first: Piece)
    requires Valid(s) && s.pending != [] && Step(key, s).Emit? && next == Step(key, s).next
    ensures s.pending == InputPiece(first) + next.pending && Step(key, s).out == OutputPiece(key, first)
    ensures first.HeadPiece? ==> Rewrite(first.head, key).Ok? && |first.head| <= MAX_HEADER_BYTES
  {
    StepProgress(key, s);
    var taken := s.pending[..Consumed(s, next)];
    first := if s.mode == Head then HeadPiece(taken) else CopiedPiece(taken);
    assert s.pending == taken + next.pending;
    if s.mode == Head {
      HeadPieceFacts(key, s, taken);
    }
  }

  lemma PieceBefore(key: bytes, first: Piece, rest: seq<Piece>)
    ensures InputOf([first] + rest) == InputPiece(first) + InputOf(rest)
    ensures OutputOf(key, [first] + rest) == OutputPiece(key, first) + OutputOf(key, rest)
  {
    assert ([first] + rest)[1..] == rest;
  }

  lemma HeadPieceFacts(key: bytes, s: State, taken: bytes)
    requires s.mode == Head && HeadStep(key, s).Emit? && 0 <= Consumed(s, HeadStep(key, s).next) <= |s.pending|
    requires taken == s.pending[..Consumed(s, HeadStep(key, s).next)]
    ensures Rewrite(taken, key).Ok? && |taken| <= MAX_HEADER_BYTES
    ensures HeadStep(key, s).out == Rewrite(taken, key).value.rewritten
  {
    assert |taken| == Find(s.pending, CRLFCRLF) + 4;
  }
}
