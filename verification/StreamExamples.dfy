/** Well-formed requests that show where the laws of the stream need their conditions. */
module StreamExamples {
  import opened Wrappers
  import opened Bytes
  import opened RequestHead
  import opened HeadLaws
  import opened StreamRewriter
  import opened LineGrammar
  import opened MessageGrammar
  import opened StreamLaws
  import opened BurstBound
  import opened BurstLimit

  // ---------------------------------------------------------------- a head at the limit

  /** A request whose head is as long as heads may be: it is accepted, and its rewriting refused. */
  lemma LongestHead(key: bytes) returns (m: Message)
    requires ValidKey(key)
    ensures |m.head| == MAX_HEADER_BYTES && GoodStream(key, [m])
    ensures Accepts(key, [Wire([m])], Forwarded(key, [m]))
    ensures !Accepts(key, [Forwarded(key, [m])], Forwarded(key, [m]))
  {
    var word: bytes := seq(MAX_HEADER_BYTES - 15, i => 'B');
    m := PlainRequest(key, word);
    AloneIsGood(key, m);
    assert [m][0] == m && !RewrittenHeadFits(key, [m][0]);
    SecondRewriterChangesNothing(key, [m]);
  }

  lemma AloneIsGood(key: bytes, m: Message)
    requires GoodMessage(key, m)
    ensures GoodStream(key, [m])
  {
    assert [m][1..] == [];
  }

  // ---------------------------------------------------------------- a chunk-size line at the limit

  const CHUNKED: bytes := "chunked"
  const TRANSFER_ENCODING: bytes := "Transfer-Encoding"

  /** `Transfer-Encoding: chunked` */
  function ChunkedHeader(): Header {
    Header("transfer-encoding", " chunked", "Transfer-Encoding: chunked")
  }

  lemma TransferEncodingIsAToken()
    ensures IsToken(TRANSFER_ENCODING) && Lower(TRANSFER_ENCODING) == ChunkedHeader().name
  {
  }

  lemma ChunkedReadsBack()
    ensures WellFormed([ChunkedHeader()])
  {
    var h := ChunkedHeader();
    TransferEncodingIsAToken();
    assert h.line == TRANSFER_ENCODING + [':'] + h.value;
    HeaderReadsBack(TRANSFER_ENCODING, h.name, h.value, h.line);
  }

  lemma ChunkedFields(headers: seq<Header>)
    requires headers == [ChunkedHeader()]
    ensures FieldsOf(headers) == Fields([], [CHUNKED], [], [])
  {
    NoValues(headers, "connection");
    NoValues(headers, "content-length");
    NoValues(headers, "upgrade");
    OneToken(" chunked", CHUNKED);
    assert headers[..0] == [];
    assert ValuesOf(headers, "transfer-encoding") == [] + [CHUNKED];
  }

  lemma ChunkedIsChunked(methodName: bytes, coding: bytes, fields: Fields)
    requires |methodName| == 1 && coding == CHUNKED && fields == Fields([], [coding], [], [])
    ensures Decide(methodName, fields) == Ok(Plan({}, false, ChunkedBody, 0, false))
  {
    OnlyChunked(coding);
    assert |Upper(methodName)| != |"CONNECT"|;
    ChunkedDecision(methodName, fields);
  }

  lemma OnlyChunked(coding: bytes)
    requires coding == CHUNKED
    ensures Items([coding]) == [coding] && ChunkedLast(LowerAll([coding]))
  {
    ChunkedIsAToken(coding);
    LoneItem(coding);
    var codings := LowerAll([coding]);
    assert codings == [coding];
    assert multiset([coding])[coding] == 1;
  }

  lemma ChunkedIsAToken(coding: bytes)
    requires coding == CHUNKED
    ensures IsToken(coding) && Lower(coding) == coding
  {
  }

  lemma LoneItem(token: bytes)
    requires IsToken(token)
    ensures Items([token]) == [token]
  {
    assert IsTokenChar(token[0]) && IsTokenChar(token[|token| - 1]);
    StripTrimmed(token);
    OneItem(token);
  }

  /** Nothing but an acceptable Transfer-Encoding decides for a chunked body. */
  lemma ChunkedDecision(methodName: bytes, fields: Fields)
    requires fields.connection == [] && fields.length == [] && fields.upgrade == [] && fields.transfer != []
    requires ChunkedLast(LowerAll(Items(fields.transfer))) && Upper(methodName) != "CONNECT"
    ensures Decide(methodName, fields) == Ok(Plan({}, false, ChunkedBody, 0, false))
  {
    assert Items([]) == [] && TokenSet([]) == Some({});
  }

  predicate Zeros(line: bytes) {
    forall c: byte :: c in line ==> c == '0'
  }

  lemma {:induction false} ZerosAreZero(line: bytes)
    requires Zeros(line)
    ensures forall c: byte :: c in line ==> IsHexDigit(c)
    ensures HexadecimalValue(line) == 0
  {
    if line != [] {
      var most := line[..|line| - 1];
      assert forall c: byte :: c in most ==> c in line;
      assert line[|line| - 1] in line;
      ZerosAreZero(most);
    }
  }

  lemma ZerosEndTheBody(line: bytes)
    requires line != [] && Zeros(line)
    ensures SizeOf(line) == Some(0) && Find(line, CRLF) < 0
  {
    FindAbsent(line, ';', ";");
    FindAbsent(line, '\r', CRLF);
    assert line[0] in line && line[|line| - 1] in line;
    StripTrimmed(line);
    ZerosAreZero(line);
    assert Find(line, ";") < 0;
    assert Strip(line) == line;
    assert AllHexDigits(line);
    assert HexadecimalValue(line) == 0;
  }

  /** A request whose last chunk is announced by a line of 8192 zeros: accepted whole, not however cut. */
  lemma LongLastChunk(key: bytes) returns (m: Message)
    requires ValidKey(key)
    ensures m.body.Chunks? && m.body.chunks == [] && |m.body.last| == MAX_CHUNK_LINE_BYTES && GoodStream(key, [m])
    ensures Accepts(key, [Wire([m])], Forwarded(key, [m]))
    ensures !AcceptsEveryCutting(key, Wire([m]), Forwarded(key, [m]))
  {
    var zeros: bytes := seq(MAX_CHUNK_LINE_BYTES, i => '0');
    ZerosEndTheBody(zeros);
    var head := ChunkedHead(key);
    m := Message(head, Chunks([], zeros, []));
    ZerosAreABody(m.body, zeros);
    AloneIsGood(key, m);
    LongLineIsLong(m);
    EveryCuttingIsAccepted(key, [m]);
    WholeStream(key, Wire([m]), Forwarded(key, [m]));
  }

  lemma ZerosAreABody(body: Body, line: bytes)
    requires body == Chunks([], line, []) && SizeOf(line) == Some(0) && Find(line, CRLF) < 0
    ensures GoodChunkedBody(body)
  {
    SizeOfIs(line, 0);
  }

  lemma LongLineIsLong(m: Message)
    requires m.body.Chunks? && !IsShort(m.body.last)
    ensures !ShortStream([m])
  {
  }

  lemma ChunkedHead(key: bytes) returns (head: bytes)
    ensures 4 <= |head| <= MAX_HEADER_BYTES && Find(head, CRLFCRLF) == |head| - 4
    ensures Rewrite(head, key).Ok? && Rewrite(head, key).value.body == ChunkedBody
  {
    RequestLineIsValid(['B']);
    head := HeadWithLine(key, RequestLine(['B']));
  }

  lemma HeadWithLine(key: bytes, line: bytes) returns (head: bytes)
    requires 0 < |line| <= 100 && Find(line, CRLF) < 0 && ValidRequestLine(Split(line, " "))
    requires |Split(line, " ")[0]| == 1
    ensures 4 <= |head| <= MAX_HEADER_BYTES && Find(head, CRLFCRLF) == |head| - 4
    ensures Rewrite(head, key).Ok? && Rewrite(head, key).value.body == ChunkedBody
  {
    var headers := [ChunkedHeader()];
    ChunkedHeaderDecides(Split(line, " ")[0], headers);
    head := HeadFrom(key, line, headers);
  }

  lemma ChunkedHeaderDecides(methodName: bytes, headers: seq<Header>)
    requires |methodName| == 1 && headers == [ChunkedHeader()]
    ensures WellFormed(headers) && LineBytes(headers) <= 100
    ensures Decide(methodName, FieldsOf(headers)) == Ok(Plan({}, false, ChunkedBody, 0, false))
  {
    ChunkedReadsBack();
    ChunkedFields(headers);
    ChunkedIsChunked(methodName, CHUNKED, FieldsOf(headers));
    LineBytesOfOne(headers[0]);
  }

  lemma HeadFrom(key: bytes, line: bytes, headers: seq<Header>) returns (head: bytes)
    requires line != [] && Find(line, CRLF) < 0 && ValidRequestLine(Split(line, " ")) && WellFormed(headers)
    requires |line| + LineBytes(headers) + 4 <= MAX_HEADER_BYTES
    requires Decide(Split(line, " ")[0], FieldsOf(headers)) == Ok(Plan({}, false, ChunkedBody, 0, false))
    ensures 4 <= |head| <= MAX_HEADER_BYTES && Find(head, CRLFCRLF) == |head| - 4
    ensures Rewrite(head, key).Ok? && Rewrite(head, key).value.body == ChunkedBody
  {
    RewriteRendered(line, headers, Plan({}, false, ChunkedBody, 0, false), key);
    RenderReadsBack(line, headers);
    JoinLength(line, headers);
    head := Render(line, headers);
  }

  lemma LineBytesOfOne(h: Header)
    ensures LineBytes([h]) == |h.line| + 2
  {
    assert [h][..0] == [];
  }
}
