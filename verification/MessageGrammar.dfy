/**
 * What the rewriter accepts and what it emits, said without a parser: a stream is a sequence of requests,
 * each a head and a body framed as that head announces (sections 6.3 and 7.1 of RFC 9112).
 */
module MessageGrammar {
  import opened Wrappers
  import opened Bytes
  import opened RequestHead
  import opened StreamRewriter
  import opened Fragmentation
  import opened LineGrammar

  /** A chunk-size line, without its CRLF, and the data it announces. */
  datatype Chunk = Chunk(line: bytes, data: bytes)

  datatype Body =
    | Empty
    | Sized(data: bytes)
    | Chunks(chunks: seq<Chunk>, last: bytes, trailers: seq<bytes>)
    | Tunnel(data: bytes)

  datatype Message = Message(head: bytes, body: Body)

  // ---------------------------------------------------------------- the bytes of a message

  function WireChunks(chunks: seq<Chunk>): bytes {
    if chunks == [] then []
    else (chunks[0].line + CRLF) + (chunks[0].data + CRLF) + WireChunks(chunks[1..])
  }

  function WireLines(lines: seq<bytes>): bytes {
    if lines == [] then [] else (lines[0] + CRLF) + WireLines(lines[1..])
  }

  function WireBody(body: Body): bytes {
    match body
    case Empty => []
    case Sized(data) => data
    case Chunks(chunks, last, trailers) => WireChunks(chunks) + ((last + CRLF) + (WireLines(trailers) + CRLF))
    case Tunnel(data) => data
  }

  function Wire(messages: seq<Message>): bytes {
    if messages == [] then []
    else messages[0].head + (WireBody(messages[0].body) + Wire(messages[1..]))
  }

  /** The specification of the rewriter: every head rewritten, every body copied. */
  function Forwarded(key: bytes, messages: seq<Message>): bytes {
    if messages == [] then []
    else
      var r := Rewrite(messages[0].head, key);
      (if r.Ok? then r.value.rewritten else []) + (WireBody(messages[0].body) + Forwarded(key, messages[1..]))
  }

  // ---------------------------------------------------------------- well-formed messages

  ghost predicate GoodChunk(c: Chunk) {
    Find(c.line, CRLF) < 0 && IsSizeLine(c.line, |c.data|) && c.data != []
  }

  ghost predicate GoodTrailer(line: bytes) {
    line != [] && Find(line, CRLF) < 0 && IsTrailer(line)
  }

  ghost predicate GoodChunkedBody(body: Body) {
    && body.Chunks?
    && (forall c :: c in body.chunks ==> GoodChunk(c))
    && Find(body.last, CRLF) < 0 && IsSizeLine(body.last, 0)
    && (forall t :: t in body.trailers ==> GoodTrailer(t))
    && |WireLines(body.trailers)| + 2 <= MAX_HEADER_BYTES
  }

  ghost predicate GoodBody(f: Framed, body: Body) {
    match f.body
    case NoBody => body.Empty?
    case FixedBody => body.Sized? && |body.data| == f.length
    case ChunkedBody => GoodChunkedBody(body)
    case RawBody => body.Tunnel?
  }

  ghost predicate GoodMessage(key: bytes, m: Message) {
    && 4 <= |m.head| <= MAX_HEADER_BYTES && Find(m.head, CRLFCRLF) == |m.head| - 4
    && Rewrite(m.head, key).Ok?
    && GoodBody(Rewrite(m.head, key).value, m.body)
  }

  /** A request after which the connection carries no further request. */
  predicate IsLast(f: Framed) {
    f.closeAfter || f.body.RawBody?
  }

  /** Requests one after another; one that ends the connection comes last. */
  ghost predicate GoodStream(key: bytes, messages: seq<Message>) {
    messages == [] ||
    (&& GoodMessage(key, messages[0])
     && (IsLast(Rewrite(messages[0].head, key).value) ==> |messages| == 1)
     && GoodStream(key, messages[1..]))
  }

  /** A chunk-size line, without its CRLF, below the limit. */
  predicate IsShort(line: bytes) {
    |line| < MAX_CHUNK_LINE_BYTES
  }

  predicate ShortChunks(chunks: seq<Chunk>) {
    chunks == [] || (IsShort(chunks[0].line) && ShortChunks(chunks[1..]))
  }

  predicate ShortBody(body: Body) {
    body.Chunks? ==> ShortChunks(body.chunks) && IsShort(body.last)
  }

  /** Every chunk-size line of the stream is short, those of the last chunks included. */
  predicate ShortStream(messages: seq<Message>) {
    messages == [] || (ShortBody(messages[0].body) && ShortStream(messages[1..]))
  }

  // ---------------------------------------------------------------- running over one piece

  function At(pending: bytes, mode: Mode, close: bool): State {
    State(pending, mode, 0, 0, close)
  }

  lemma RunCopy(key: bytes, s: State, data: bytes, rest: bytes, finished: Mode)
    requires s.mode in {Fixed, ChunkData} && s.remaining == |data| > 0 && s.pending == data + rest
    requires finished == if s.mode == Fixed then Finished(s.closeAfter) else ChunkCrlf
    ensures Passes(key, s, data, s.(pending := rest, remaining := 0, mode := finished), true)
  {
    assert (data + rest)[..|data|] == data && (data + rest)[|data|..] == rest;
    PassesStep(key, s, data, s.(pending := rest, remaining := 0, mode := finished), true);
  }

  function AfterSizeLine(n: nat, rest: bytes, close: bool): State {
    State(rest, if n == 0 then ChunkTrailers else ChunkData, n, 0, close)
  }

  lemma RunSizeLine(key: bytes, line: bytes, n: nat, rest: bytes, close: bool)
    requires Find(line, CRLF) < 0 && IsSizeLine(line, n)
    ensures Passes(key, At(line + CRLF + rest, ChunkSize, close), line + CRLF, AfterSizeLine(n, rest, close),
                   IsShort(line))
  {
    SizeOfIs(line, n);
    FindLine(line, rest);
    LineSlices(line, rest);
    var s := At(line + CRLF + rest, ChunkSize, close);
    SizeTaken(s, |line|, Some(n));
    PassesStep(key, s, line + CRLF, AfterSizeLine(n, rest, close), IsShort(line));
  }

  lemma LineSlices(line: bytes, rest: bytes)
    ensures var p := line + CRLF + rest;
            p[..|line|] == line && p[..|line| + 2] == line + CRLF && p[|line| + 2..] == rest
  {
  }

  lemma RunCrlf(key: bytes, rest: bytes, close: bool)
    ensures Passes(key, At(CRLF + rest, ChunkCrlf, close), CRLF, At(rest, ChunkSize, close), true)
  {
    assert (CRLF + rest)[..2] == CRLF && (CRLF + rest)[2..] == rest;
    PassesStep(key, At(CRLF + rest, ChunkCrlf, close), CRLF, At(rest, ChunkSize, close), true);
  }

  lemma RunChunk(key: bytes, c: Chunk, rest: bytes, close: bool)
    requires GoodChunk(c)
    ensures var wire := (c.line + CRLF) + (c.data + CRLF);
            Passes(key, At(wire + rest, ChunkSize, close), wire, At(rest, ChunkSize, close), IsShort(c.line))
  {
    var after := c.data + (CRLF + rest);
    var start, next := At(c.line + CRLF + after, ChunkSize, close), At(rest, ChunkSize, close);
    assert (c.line + CRLF) + (c.data + CRLF) + rest == c.line + CRLF + after;
    var reading, ending := State(after, ChunkData, |c.data|, 0, close), At(CRLF + rest, ChunkCrlf, close);
    RunSizeLine(key, c.line, |c.data|, after, close);
    RunCopy(key, reading, c.data, CRLF + rest, ChunkCrlf);
    RunCrlf(key, rest, close);
    PassesOn(key, reading, c.data, ending, true, CRLF, next, true);
    PassesOn(key, start, c.line + CRLF, reading, IsShort(c.line), c.data + CRLF, next, true);
  }

  lemma {:induction false} RunChunks(key: bytes, chunks: seq<Chunk>, rest: bytes, close: bool)
    requires forall c :: c in chunks ==> GoodChunk(c)
    ensures Passes(key, At(WireChunks(chunks) + rest, ChunkSize, close), WireChunks(chunks),
                   At(rest, ChunkSize, close), ShortChunks(chunks))
  {
    if chunks == [] {
      assert [] + rest == rest;
      PassesNothing(key, At(rest, ChunkSize, close));
    } else {
      var c := chunks[0];
      var first, others := (c.line + CRLF) + (c.data + CRLF), WireChunks(chunks[1..]);
      assert forall d :: d in chunks[1..] ==> d in chunks;
      assert first + others + rest == first + (others + rest);
      RunChunk(key, c, others + rest, close);
      RunChunks(key, chunks[1..], rest, close);
      PassesOn(key, At(first + (others + rest), ChunkSize, close), first, At(others + rest, ChunkSize, close),
               IsShort(c.line), others, At(rest, ChunkSize, close), ShortChunks(chunks[1..]));
    }
  }

  lemma RunTrailer(key: bytes, s: State, line: bytes, rest: bytes, next: State)
    requires GoodTrailer(line) && s.trailerBytes + |line| + 2 <= MAX_HEADER_BYTES
    requires s.mode == ChunkTrailers && s.pending == line + CRLF + rest && Valid(s)
    requires next == s.(pending := rest, trailerBytes := s.trailerBytes + |line| + 2)
    ensures Passes(key, s, line + CRLF, next, true)
  {
    TrailerIs(line);
    FindLine(line, rest);
    LineSlices(line, rest);
    TrailerTaken(s, |line|);
    assert AfterTrailer(s, |line|) == next;
    PassesStep(key, s, line + CRLF, next, true);
  }

  lemma RunTrailersEnd(key: bytes, s: State, rest: bytes)
    requires s.mode == ChunkTrailers && s.pending == CRLF + rest && s.trailerBytes + 2 <= MAX_HEADER_BYTES
    ensures Passes(key, s, CRLF, AfterTrailers(s, rest), true)
  {
    assert [] + CRLF + rest == s.pending;
    FindLine([], rest);
    LineSlices([], rest);
    TrailerTaken(s, 0);
    assert s.pending[2..] == rest && s.pending[..2] == CRLF;
    PassesStep(key, s, CRLF, AfterTrailers(s, rest), true);
  }

  /** Where the blank line after the trailers leaves the parser. */
  function AfterTrailers(s: State, rest: bytes): State {
    s.(pending := rest, mode := Finished(s.closeAfter), trailerBytes := 0)
  }

  lemma FirstLine(lines: seq<bytes>, rest: bytes)
    requires lines != []
    ensures WireLines(lines) + CRLF == (lines[0] + CRLF) + (WireLines(lines[1..]) + CRLF)
    ensures WireLines(lines) + CRLF + rest == lines[0] + CRLF + ((WireLines(lines[1..]) + CRLF) + rest)
    ensures |WireLines(lines)| == |lines[0]| + 2 + |WireLines(lines[1..])|
  {
  }

  lemma {:induction false} RunTrailers(key: bytes, s: State, lines: seq<bytes>, rest: bytes)
    requires s.mode == ChunkTrailers && s.pending == WireLines(lines) + CRLF + rest
    requires forall t :: t in lines ==> GoodTrailer(t)
    requires s.trailerBytes + |WireLines(lines)| + 2 <= MAX_HEADER_BYTES
    ensures Passes(key, s, WireLines(lines) + CRLF, AfterTrailers(s, rest), true)
    decreases |lines|
  {
    if lines == [] {
      assert [] + CRLF + rest == CRLF + rest && [] + CRLF == CRLF;
      RunTrailersEnd(key, s, rest);
    } else {
      var line, tail := lines[0], WireLines(lines[1..]) + CRLF;
      assert forall t :: t in lines[1..] ==> t in lines;
      FirstLine(lines, rest);
      var next := s.(pending := tail + rest, trailerBytes := s.trailerBytes + |line| + 2);
      RunTrailer(key, s, line, tail + rest, next);
      RunTrailers(key, next, lines[1..], rest);
      assert AfterTrailers(next, rest) == AfterTrailers(s, rest);
      PassesOn(key, s, line + CRLF, next, true, tail, AfterTrailers(s, rest), true);
    }
  }

  lemma RunChunkedBody(key: bytes, body: Body, rest: bytes, close: bool)
    requires GoodChunkedBody(body)
    ensures Passes(key, At(WireBody(body) + rest, ChunkSize, close), WireBody(body), At(rest, Finished(close), close),
                   ShortBody(body))
  {
    var chunks, last, end := WireChunks(body.chunks), body.last + CRLF, WireLines(body.trailers) + CRLF;
    var start := At(chunks + (last + (end + rest)), ChunkSize, close);
    var lastLine := At(last + (end + rest), ChunkSize, close);
    var finished := At(rest, Finished(close), close);
    assert WireBody(body) + rest == chunks + (last + (end + rest));
    RunChunks(key, body.chunks, last + (end + rest), close);
    RunSizeLine(key, body.last, 0, end + rest, close);
    var trailers := At(end + rest, ChunkTrailers, close);
    RunTrailers(key, trailers, body.trailers, rest);
    assert AfterTrailers(trailers, rest) == finished;
    PassesOn(key, lastLine, last, trailers, IsShort(body.last), end, finished, true);
    PassesOn(key, start, chunks, lastLine, ShortChunks(body.chunks), last + end, finished, IsShort(body.last));
  }

  // ---------------------------------------------------------------- running over one message

  /** Where a head leaves the parser. */
  function AfterHead(f: Framed, rest: bytes): State {
    State(rest, ModeAfterHead(f), f.length, 0, f.closeAfter)
  }

  lemma HeadTaken(key: bytes, p: bytes, marker: nat)
    requires Find(p, CRLFCRLF) == marker && marker + 4 <= MAX_HEADER_BYTES && Rewrite(p[..marker + 4], key).Ok?
    ensures var f := Rewrite(p[..marker + 4], key).value;
            Step(key, At(p, Head, false)) == Emit(AfterHead(f, p[marker + 4..]), f.rewritten)
  {
  }

  lemma RunHead(key: bytes, head: bytes, rest: bytes)
    requires 4 <= |head| <= MAX_HEADER_BYTES && Find(head, CRLFCRLF) == |head| - 4 && Rewrite(head, key).Ok?
    ensures var f := Rewrite(head, key).value;
            Passes(key, At(head + rest, Head, false), f.rewritten, AfterHead(f, rest), true)
  {
    FindExtend(head, rest, CRLFCRLF);
    HeadSlices(head, rest);
    HeadTaken(key, head + rest, |head| - 4);
    var f := Rewrite(head, key).value;
    PassesStep(key, At(head + rest, Head, false), f.rewritten, AfterHead(f, rest), true);
  }

  lemma HeadSlices(head: bytes, rest: bytes)
    ensures (head + rest)[..|head|] == head && (head + rest)[|head|..] == rest
  {
  }

  /** The mode a complete request leaves behind. */
  function ModeAfter(f: Framed): Mode {
    if f.body.RawBody? then Raw else Finished(f.closeAfter)
  }

  lemma RunTunnel(key: bytes, data: bytes)
    ensures Passes(key, At(data, Raw, false), data, At([], Raw, false), true)
  {
    if data == [] {
      PassesNothing(key, At([], Raw, false));
    } else {
      PassesStep(key, At(data, Raw, false), data, At([], Raw, false), true);
    }
  }

  function AfterMessage(f: Framed, rest: bytes): State {
    At(rest, ModeAfter(f), f.closeAfter)
  }

  lemma RunNoBody(key: bytes, f: Framed, rest: bytes)
    requires f.body.NoBody? && f.length == 0
    ensures Passes(key, AfterHead(f, [] + rest), [], AfterMessage(f, rest), true)
  {
    assert [] + rest == rest;
    PassesNothing(key, AfterMessage(f, rest));
  }

  lemma RunFixedBody(key: bytes, f: Framed, data: bytes, rest: bytes)
    requires f.body.FixedBody? && |data| == f.length > 0
    ensures Passes(key, AfterHead(f, data + rest), data, AfterMessage(f, rest), true)
  {
    RunCopy(key, AfterHead(f, data + rest), data, rest, Finished(f.closeAfter));
  }

  lemma RunRawBody(key: bytes, f: Framed, data: bytes, rest: bytes)
    requires f.body.RawBody? && f.length == 0 && rest == [] && !f.closeAfter
    ensures Passes(key, AfterHead(f, data + rest), data, AfterMessage(f, rest), true)
  {
    RunTunnel(key, data);
    assert data + rest == data;
  }

  lemma RunBody(key: bytes, f: Framed, body: Body, rest: bytes)
    requires GoodBody(f, body) && (f.length > 0 <==> f.body.FixedBody?)
    requires f.body.RawBody? ==> rest == [] && !f.closeAfter
    ensures Passes(key, AfterHead(f, WireBody(body) + rest), WireBody(body), AfterMessage(f, rest), ShortBody(body))
  {
    match f.body {
      case NoBody => RunNoBody(key, f, rest);
      case FixedBody => RunFixedBody(key, f, body.data, rest);
      case ChunkedBody => RunChunkedBody(key, body, rest, f.closeAfter);
      case RawBody => RunRawBody(key, f, body.data, rest);
    }
  }

  lemma RunMessage(key: bytes, m: Message, rest: bytes)
    requires GoodMessage(key, m)
    requires Rewrite(m.head, key).value.body.RawBody? ==> rest == []
    ensures var f := Rewrite(m.head, key).value;
            Passes(key, At(m.head + (WireBody(m.body) + rest), Head, false), f.rewritten + WireBody(m.body),
                   AfterMessage(f, rest), ShortBody(m.body))
  {
    var f := Rewrite(m.head, key).value;
    var p := WireBody(m.body) + rest;
    RunHead(key, m.head, p);
    LengthOfFixed(m.head, key);
    RunBody(key, f, m.body, rest);
    PassesOn(key, At(m.head + p, Head, false), f.rewritten, AfterHead(f, p), true, WireBody(m.body),
             AfterMessage(f, rest), ShortBody(m.body));
  }

  // ---------------------------------------------------------------- every good stream is accepted

  /** Completeness: a sequence of well-formed requests is accepted and forwarded as specified. */
  lemma {:induction false} GoodStreamIsForwarded(key: bytes, messages: seq<Message>)
    requires GoodStream(key, messages)
    ensures var r := Run(key, At(Wire(messages), Head, false));
            r.Done? && r.out == Forwarded(key, messages) && Finishes(r.state)
    ensures ShortLines(key, At(Wire(messages), Head, false)) <==> ShortStream(messages)
    decreases |messages|
  {
    if messages != [] {
      var m, rest := messages[0], messages[1..];
      var f := Rewrite(m.head, key).value;
      LengthOfFixed(m.head, key);
      RunMessage(key, m, Wire(rest));
      var after := AfterMessage(f, Wire(rest));
      if IsLast(f) {
        assert rest == [];
        assert Run(key, after) == Done(after, []);
      } else {
        GoodStreamIsForwarded(key, rest);
        assert after == At(Wire(rest), Head, false);
      }
      ConcatAssociates(f.rewritten, WireBody(m.body), Forwarded(key, rest));
    }
  }

  lemma ConcatAssociates(a: bytes, b: bytes, c: bytes)
    ensures a + b + c == a + (b + c)
  {
  }

  // ---------------------------------------------------------------- every accepted stream is good

  /** The stream may end where this run ends. */
  predicate Complete(key: bytes, s: State)
    requires Valid(s)
  {
    Run(key, s).Done? && Finishes(Run(key, s).state)
  }

  /** A run that completes from a state inside a message must be able to move. */
  lemma CompleteMoves(key: bytes, s: State)
    requires Valid(s) && Complete(key, s) && (s.mode !in {Raw, Closed, Head} || (s.mode == Head && s.pending != []))
    ensures s.pending != [] && Step(key, s).Emit? && Valid(Step(key, s).next) && Complete(key, Step(key, s).next)
  {
    if s.pending != [] && Step(key, s).Emit? {
      StepProgress(key, s);
    }
  }

  lemma TrailerTurn(key: bytes, s: State)
    requires s.mode == ChunkTrailers && Complete(key, s)
    ensures var marker := Find(s.pending, CRLF);
            marker >= 0 && s.trailerBytes + marker + 2 <= MAX_HEADER_BYTES
    ensures Find(s.pending, CRLF) > 0 ==> GoodTrailer(s.pending[..Find(s.pending, CRLF)])
    ensures Find(s.pending, CRLF) > 0 ==> Complete(key, PastTrailer(s, Find(s.pending, CRLF)))
  {
    CompleteMoves(key, s);
    TrailerEmits(s);
  }

  function PastTrailer(s: State, marker: nat): State
    requires marker + 2 <= |s.pending|
  {
    s.(pending := s.pending[marker + 2..], trailerBytes := s.trailerBytes + marker + 2)
  }

  lemma TrailerEmits(s: State)
    requires s.mode == ChunkTrailers && TrailerStep(s).Emit?
    ensures var marker := Find(s.pending, CRLF);
            && marker >= 0 && s.trailerBytes + marker + 2 <= MAX_HEADER_BYTES
            && (marker > 0 ==> GoodTrailer(s.pending[..marker]))
            && (marker > 0 ==> TrailerStep(s).next == PastTrailer(s, marker))
  {
    LineBeforeFind(s.pending, CRLF);
    if Find(s.pending, CRLF) > 0 {
      TrailerIs(s.pending[..Find(s.pending, CRLF)]);
    }
  }

  lemma ConsLine(line: bytes, others: seq<bytes>, rest: bytes)
    ensures WireLines([line] + others) + CRLF + rest == line + CRLF + (WireLines(others) + CRLF + rest)
    ensures |WireLines([line] + others)| == |line| + 2 + |WireLines(others)|
  {
    assert ([line] + others)[1..] == others;
    FirstLine([line] + others, rest);
  }

  lemma {:induction false} ParseTrailers(key: bytes, s: State) returns (lines: seq<bytes>, rest: bytes)
    requires s.mode == ChunkTrailers && Complete(key, s)
    ensures forall t :: t in lines ==> GoodTrailer(t)
    ensures s.trailerBytes + |WireLines(lines)| + 2 <= MAX_HEADER_BYTES
    ensures s.pending == WireLines(lines) + CRLF + rest
    decreases |s.pending|
  {
    TrailerTurn(key, s);
    var marker := Find(s.pending, CRLF);
    LineBeforeFind(s.pending, CRLF);
    if marker == 0 {
      lines, rest := [], s.pending[2..];
      assert s.pending == [] + CRLF + rest;
    } else {
      var others;
      others, rest := ParseTrailers(key, PastTrailer(s, marker));
      ConsLine(s.pending[..marker], others, rest);
      lines := [s.pending[..marker]] + others;
    }
  }

  lemma OneMoreChunk(c: Chunk, others: Body)
    requires GoodChunk(c) && GoodChunkedBody(others)
    ensures GoodChunkedBody(Chunks([c] + others.chunks, others.last, others.trailers))
  {
    forall d | d in [c] + others.chunks ensures GoodChunk(d) {
      assert d == c || d in others.chunks;
    }
  }

  lemma NoMoreChunks(line: bytes, trailers: seq<bytes>)
    requires Find(line, CRLF) < 0 && IsSizeLine(line, 0) && forall t :: t in trailers ==> GoodTrailer(t)
    requires |WireLines(trailers)| + 2 <= MAX_HEADER_BYTES
    ensures GoodChunkedBody(Chunks([], line, trailers))
  {
  }

  lemma GoodPiece(c: Chunk)
    requires Find(c.line, CRLF) < 0 && c.data != [] && IsSizeLine(c.line, |c.data|)
    ensures GoodChunk(c)
  {
  }

  lemma {:induction false} ParseChunks(key: bytes, p: bytes, close: bool) returns (body: Body, rest: bytes)
    requires Complete(key, At(p, ChunkSize, close))
    ensures GoodChunkedBody(body) && p == WireBody(body) + rest
    decreases |p|
  {
    SizeTurn(key, p, close);
    var marker := Find(p, CRLF);
    var line, after := p[..marker], p[marker + 2..];
    LineBeforeFind(p, CRLF);
    var n := SizeOf(line).value;
    SizeOfIs(line, n);
    if n == 0 {
      var trailers;
      trailers, rest := ParseTrailers(key, AfterSizeLine(0, after, close));
      body := Chunks([], line, trailers);
      NoMoreChunks(line, trailers);
      LastChunk(line, trailers, rest);
    } else {
      var tail := ParseChunkData(key, after, n, close);
      var others;
      others, rest := ParseChunks(key, tail, close);
      var c := Chunk(line, after[..n]);
      GoodPiece(c);
      body := Chunks([c] + others.chunks, others.last, others.trailers);
      OneMoreChunk(c, others);
      WireFirstChunk(c, others, rest);
    }
  }

  lemma SizeTurn(key: bytes, p: bytes, close: bool)
    requires Complete(key, At(p, ChunkSize, close))
    ensures var marker := Find(p, CRLF);
            && marker >= 0 && SizeOf(p[..marker]).Some?
            && Complete(key, AfterSizeLine(SizeOf(p[..marker]).value, p[marker + 2..], close))
  {
    CompleteMoves(key, At(p, ChunkSize, close));
  }

  lemma LastChunk(line: bytes, trailers: seq<bytes>, rest: bytes)
    ensures WireBody(Chunks([], line, trailers)) + rest == line + CRLF + (WireLines(trailers) + CRLF + rest)
  {
    var end := WireLines(trailers) + CRLF;
    assert WireBody(Chunks([], line, trailers)) == (line + CRLF) + end;
    ConcatAssociates(line + CRLF, end, rest);
  }

  lemma WireFirstChunk(c: Chunk, others: Body, rest: bytes)
    requires others.Chunks?
    ensures WireBody(Chunks([c] + others.chunks, others.last, others.trailers)) + rest
         == c.line + CRLF + (c.data + (CRLF + (WireBody(others) + rest)))
  {
    assert ([c] + others.chunks)[1..] == others.chunks;
  }

  lemma ParseChunkData(key: bytes, p: bytes, n: nat, close: bool) returns (tail: bytes)
    requires n > 0 && Complete(key, State(p, ChunkData, n, 0, close))
    ensures n <= |p| && p == p[..n] + (CRLF + tail) && Complete(key, At(tail, ChunkSize, close))
  {
    CopyTurn(key, State(p, ChunkData, n, 0, close));
    CrlfTurn(key, p[n..], close);
    tail := p[n..][2..];
    assert p == p[..n] + p[n..];
  }

  /** A body that is copied to its end was there. */
  lemma CopyTurn(key: bytes, s: State)
    requires s.mode in {Fixed, ChunkData} && s.remaining > 0 && Complete(key, s)
    ensures s.remaining <= |s.pending|
    ensures Complete(key, s.(pending := s.pending[s.remaining..], remaining := 0,
                             mode := if s.mode == Fixed then Finished(s.closeAfter) else ChunkCrlf))
  {
    CompleteMoves(key, s);
    var next := Step(key, s).next;
    if s.remaining > |s.pending| {
      assert next.pending == [];
      CompleteMoves(key, next);
      assert false;
    }
  }

  lemma CrlfTurn(key: bytes, p: bytes, close: bool)
    requires Complete(key, At(p, ChunkCrlf, close))
    ensures |p| >= 2 && p == CRLF + p[2..] && Complete(key, At(p[2..], ChunkSize, close))
  {
    CompleteMoves(key, At(p, ChunkCrlf, close));
  }

  lemma ParseSized(key: bytes, f: Framed, p: bytes) returns (body: Body, rest: bytes)
    requires f.body.FixedBody? && f.length > 0 && Complete(key, AfterHead(f, p))
    ensures GoodBody(f, body) && p == WireBody(body) + rest
  {
    CopyTurn(key, AfterHead(f, p));
    body, rest := Sized(p[..f.length]), p[f.length..];
    TwoParts(p, f.length);
  }

  lemma Beside(p: bytes)
    ensures [] + p == p && p + [] == p
  {
  }

  lemma ParseBody(key: bytes, f: Framed, p: bytes) returns (body: Body, rest: bytes)
    requires f.length > 0 <==> f.body.FixedBody?
    requires f.body.RawBody? ==> !f.closeAfter
    requires Complete(key, AfterHead(f, p))
    ensures GoodBody(f, body) && p == WireBody(body) + rest && (f.body.RawBody? ==> rest == [])
  {
    match f.body {
      case NoBody =>
        body, rest := Empty, p;
        Beside(p);
      case FixedBody =>
        body, rest := ParseSized(key, f, p);
      case ChunkedBody =>
        body, rest := ParseChunks(key, p, f.closeAfter);
      case RawBody =>
        body, rest := Tunnel(p), [];
        Beside(p);
    }
  }

  /** Soundness: what is accepted to its end is a sequence of well-formed requests. */
  lemma {:induction false} AcceptedStreamIsGood(key: bytes, p: bytes) returns (messages: seq<Message>)
    requires Complete(key, At(p, Head, false))
    ensures GoodStream(key, messages) && Wire(messages) == p
    decreases |p|
  {
    if p == [] {
      return [];
    }
    var m, rest := ParseMessage(key, p);
    var f := Rewrite(m.head, key).value;
    var others: seq<Message> := [];
    if f.closeAfter {
      LengthOfFixed(m.head, key);
      EndedStream(key, AfterMessage(f, rest));
    } else if !f.body.RawBody? {
      assert AfterMessage(f, rest) == At(rest, Head, false);
      others := AcceptedStreamIsGood(key, rest);
    }
    GoodCons(key, m, others);
    messages := [m] + others;
  }

  lemma EndedStream(key: bytes, s: State)
    requires Valid(s) && s.mode == Closed && Complete(key, s)
    ensures s.pending == []
  {
  }

  /** One message in front of a stream, or a last message on its own. */
  lemma GoodCons(key: bytes, m: Message, others: seq<Message>)
    requires GoodMessage(key, m) && GoodStream(key, others)
    requires IsLast(Rewrite(m.head, key).value) ==> others == []
    ensures GoodStream(key, [m] + others)
    ensures Wire([m] + others) == m.head + (WireBody(m.body) + Wire(others))
  {
    assert ([m] + others)[1..] == others;
  }

  lemma TwoParts(p: bytes, i: nat)
    requires i <= |p|
    ensures p == p[..i] + p[i..]
  {
  }

  /** A run that completes from pending bytes takes a head from their front. */
  lemma HeadFound(key: bytes, p: bytes) returns (head: bytes, rest: bytes)
    requires p != [] && Complete(key, At(p, Head, false))
    ensures p == head + rest
    ensures 4 <= |head| <= MAX_HEADER_BYTES && Find(head, CRLFCRLF) == |head| - 4 && Rewrite(head, key).Ok?
    ensures var after := AfterHead(Rewrite(head, key).value, rest);
            Valid(after) && Complete(key, after)
  {
    CompleteMoves(key, At(p, Head, false));
    var marker := Find(p, CRLFCRLF);
    HeadEmits(key, At(p, Head, false));
    HeadTaken(key, p, marker);
    var end := marker + 4;
    FindPrefix(p, CRLFCRLF, end);
    head, rest := p[..end], p[end..];
    TwoParts(p, end);
  }

  lemma CompleteAfter(key: bytes, s: State, out: bytes, next: State)
    requires Valid(s) && Valid(next) && Complete(key, s) && Run(key, s) == Prepend(out, Run(key, next))
    ensures Complete(key, next)
  {
  }

  lemma ParseMessage(key: bytes, p: bytes) returns (m: Message, rest: bytes)
    requires p != [] && Complete(key, At(p, Head, false))
    ensures GoodMessage(key, m) && p == m.head + (WireBody(m.body) + rest) && |rest| < |p|
    ensures Rewrite(m.head, key).value.body.RawBody? ==> rest == []
    ensures Complete(key, AfterMessage(Rewrite(m.head, key).value, rest))
  {
    var head, after := HeadFound(key, p);
    var f := Rewrite(head, key).value;
    LengthOfFixed(head, key);
    var body;
    body, rest := ParseBody(key, f, after);
    m := Message(head, body);
    RunBody(key, f, body, rest);
    CompleteAfter(key, AfterHead(f, after), WireBody(body), AfterMessage(f, rest));
  }
}
