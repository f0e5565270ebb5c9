/**
 * Rewriting one HTTP/1.1 request head: hop-by-hop headers (section 7.6.1 of RFC 9110) and any client
 * credentials go, the local key comes in, and the message body length (section 6.3 of RFC 9112) is read off.
 */
module RequestHead {
  import opened Wrappers
  import opened Bytes

  const MAX_API_KEY_BYTES: nat := 2048

  const FRAMING_HEADERS: set<bytes> := {"content-length", "transfer-encoding", "host", "trailer"}
  const ALWAYS_REMOVED: set<bytes> :=
    {"authorization", "connection", "keep-alive", "proxy-authorization", "proxy-connection", "te"}

  datatype HeadError =
    | IncompleteHead
    | InvalidRequestLine
    | InvalidHeader
    | InvalidConnectionToken
    | ConnectionNamesFramingHeader
    | InvalidContentLength
    | TooManyDigits
    | ConflictingContentLength
    | BothFramings
    | UnsupportedTransferEncoding

  /** How the body after the head is delimited. */
  datatype BodyMode = NoBody | FixedBody | ChunkedBody | RawBody

  datatype Header = Header(name: bytes, value: bytes, line: bytes)

  datatype Framed = Framed(rewritten: bytes, body: BodyMode, length: nat, closeAfter: bool)

  /** What the headers of one request amount to. */
  datatype Plan = Plan(tokens: set<bytes>, upgrade: bool, body: BodyMode, length: nat, closeAfter: bool)

  predicate ValidKey(key: bytes) {
    0 < |key| <= MAX_API_KEY_BYTES && '\r' !in key && '\n' !in key
  }

  // ---------------------------------------------------------------- reading header lines

  function ParseHeader(line: bytes): Option<Header> {
    var at := Find(line, ":");
    if at < 0 then None
    else
      var name := line[..at];
      if name != Strip(name) || !IsToken(name) then None
      else Some(Header(Lower(name), line[at + 1..], line))
  }

  predicate AllHeaders(lines: seq<bytes>) {
    forall i :: 0 <= i < |lines| ==> ParseHeader(lines[i]).Some?
  }

  function Headers(lines: seq<bytes>): (hs: seq<Header>)
    requires AllHeaders(lines)
    ensures |hs| == |lines|
  {
    seq(|lines|, i requires 0 <= i < |lines| => ParseHeader(lines[i]).value)
  }

  function Lines(headers: seq<Header>): (r: seq<bytes>)
    ensures |r| == |headers|
  {
    seq(|headers|, i requires 0 <= i < |headers| => headers[i].line)
  }

  /** The stripped values of every header of that name, in order. */
  function ValuesOf(headers: seq<Header>, name: bytes): seq<bytes> {
    if headers == [] then []
    else
      var last := headers[|headers| - 1];
      ValuesOf(headers[..|headers| - 1], name) + if last.name == name then [Strip(last.value)] else []
  }

  /** The stripped comma-separated items of a list of values. */
  function Items(values: seq<bytes>): seq<bytes> {
    if values == [] then []
    else Items(values[..|values| - 1]) + StripAll(Split(values[|values| - 1], ","))
  }

  function StripAll(parts: seq<bytes>): (r: seq<bytes>)
    ensures |r| == |parts|
  {
    seq(|parts|, i requires 0 <= i < |parts| => Strip(parts[i]))
  }

  function LowerAll(parts: seq<bytes>): (r: seq<bytes>)
    ensures |r| == |parts|
  {
    seq(|parts|, i requires 0 <= i < |parts| => Lower(parts[i]))
  }

  function TokenSet(items: seq<bytes>): Option<set<bytes>> {
    if items == [] then Some({})
    else
      var last := Lower(items[|items| - 1]);
      var others := TokenSet(items[..|items| - 1]);
      if others.None? || !IsToken(last) then None else Some(others.value + {last})
  }

  /** What `int(item, 10)` takes by default. */
  const MAX_INT_DIGITS: nat := 4300

  /** An item that `int` reads. */
  predicate Readable(item: bytes) {
    AllDigits(item) && |item| <= MAX_INT_DIGITS
  }

  /** Why the first item that is no length is none. */
  function Refusal(items: seq<bytes>): Option<HeadError> {
    if items == [] then None
    else
      var earlier, last := Refusal(items[..|items| - 1]), items[|items| - 1];
      if earlier.Some? then earlier
      else if !AllDigits(last) then Some(InvalidContentLength)
      else if |last| > MAX_INT_DIGITS then Some(TooManyDigits)
      else None
  }

  /** All items must be lengths and say the same. */
  function LengthOf(items: seq<bytes>): Result<Option<nat>, HeadError> {
    if Refusal(items).Some? then Err(Refusal(items).value)
    else if items == [] then Ok(None)
    else
      EveryoneReadable(items);
      if exists i :: 0 <= i < |items| && DecimalValue(items[i]) != DecimalValue(items[0])
      then Err(ConflictingContentLength)
      else Ok(Some(DecimalValue(items[0])))
  }

  lemma {:induction false} EveryoneReadable(items: seq<bytes>)
    ensures Refusal(items).None? <==> forall i :: 0 <= i < |items| ==> Readable(items[i])
  {
    if items != [] {
      EveryoneReadable(items[..|items| - 1]);
    }
  }

  predicate ChunkedLast(codings: seq<bytes>) {
    && codings != []
    && codings[|codings| - 1] == "chunked"
    && multiset(codings)["chunked"] == 1
  }

  // ---------------------------------------------------------------- the framing decision

  /** What the headers that matter for framing say. */
  datatype Fields = Fields(connection: seq<bytes>, transfer: seq<bytes>, length: seq<bytes>, upgrade: seq<bytes>)

  function FieldsOf(headers: seq<Header>): Fields {
    Fields(ValuesOf(headers, "connection"), ValuesOf(headers, "transfer-encoding"),
           ValuesOf(headers, "content-length"), ValuesOf(headers, "upgrade"))
  }

  function Decide(methodName: bytes, fields: Fields): Result<Plan, HeadError> {
    var named := TokenSet(Items(fields.connection));
    var length := LengthOf(Items(fields.length));
    if named.None? then Err(InvalidConnectionToken)
    else if named.value * FRAMING_HEADERS != {} then Err(ConnectionNamesFramingHeader)
    else if length.Err? then Err(length.error)
    else if fields.transfer != [] && length.value.Some? then Err(BothFramings)
    else if fields.transfer != [] && !ChunkedLast(LowerAll(Items(fields.transfer)))
    then Err(UnsupportedTransferEncoding)
    else
      var upgrade := "upgrade" in named.value && fields.upgrade != [];
      var raw := upgrade || Upper(methodName) == "CONNECT";
      var body := if raw then RawBody
                  else if fields.transfer != [] then ChunkedBody
                  else if length.value.Some? && length.value.value > 0 then FixedBody
                  else NoBody;
      Ok(Plan(named.value, upgrade, body, if body.FixedBody? then length.value.value else 0,
              "close" in named.value && !raw))
  }

  /** Whether a header of that name is passed on. */
  predicate Keeps(name: bytes, tokens: set<bytes>, upgrade: bool) {
    if name in ALWAYS_REMOVED || name in tokens then upgrade && name == "upgrade"
    else !(name == "upgrade" && !upgrade)
  }

  function Kept(headers: seq<Header>, tokens: set<bytes>, upgrade: bool): (r: seq<Header>)
    ensures forall h :: h in r ==> h in headers && Keeps(h.name, tokens, upgrade)
  {
    if headers == [] then []
    else
      var last := headers[|headers| - 1];
      Kept(headers[..|headers| - 1], tokens, upgrade) + if Keeps(last.name, tokens, upgrade) then [last] else []
  }

  function AuthorizationHeader(key: bytes): Header {
    Header("authorization", " Bearer " + key, "Authorization: Bearer " + key)
  }

  function ConnectionHeader(tokens: set<bytes>, upgrade: bool): seq<Header> {
    if upgrade then [Header("connection", " Upgrade", "Connection: Upgrade")]
    else if "close" in tokens then [Header("connection", " close", "Connection: close")]
    else []
  }

  /** The headers of the rewritten request, in order. */
  function NewHeaders(headers: seq<Header>, tokens: set<bytes>, upgrade: bool, key: bytes): seq<Header> {
    Kept(headers, tokens, upgrade) + [AuthorizationHeader(key)] + ConnectionHeader(tokens, upgrade)
  }

  predicate ValidRequestLine(parts: seq<bytes>) {
    && |parts| == 3 && parts[0] != [] && parts[1] != []
    && (parts[2] == "HTTP/1.0" || parts[2] == "HTTP/1.1")
  }

  function Render(requestLine: bytes, headers: seq<Header>): bytes {
    Join([requestLine] + Lines(headers), CRLF) + CRLFCRLF
  }

  /** The whole rewriting of one head. */
  function Rewrite(head: bytes, key: bytes): Result<Framed, HeadError> {
    if |head| < 4 || head[|head| - 4..] != CRLFCRLF then Err(IncompleteHead)
    else
      var lines := Split(head[..|head| - 4], CRLF);
      var parts := Split(lines[0], " ");
      if !ValidRequestLine(parts) then Err(InvalidRequestLine)
      else if !AllHeaders(lines[1..]) then Err(InvalidHeader)
      else
        var headers := Headers(lines[1..]);
        var plan := Decide(parts[0], FieldsOf(headers));
        if plan.Err? then Err(plan.error)
        else
          var p := plan.value;
          Ok(Framed(Render(lines[0], NewHeaders(headers, p.tokens, p.upgrade, key)), p.body, p.length, p.closeAfter))
  }

  // ---------------------------------------------------------------- the loops that compute it

  method HeaderTokens(values: seq<bytes>) returns (r: Option<set<bytes>>)
    ensures r == TokenSet(Items(values))
  {
    var tokens: set<bytes> := {};
    for i := 0 to |values|
      invariant TokenSet(Items(values[..i])) == Some(tokens)
    {
      assert values[..i + 1][..i] == values[..i];
      r := ValueTokens(Split(values[i], ","), tokens, Items(values[..i]));
      if r.None? {
        ItemsPrefix(values, i + 1);
        TokenSetPrefix(Items(values[..i + 1]), Items(values)[|Items(values[..i + 1])|..]);
        return;
      }
      tokens := r.value;
    }
    assert values[..|values|] == values;
    return Some(tokens);
  }

  /** The inner loop: the comma-separated tokens of one value join those already collected. */
  method ValueTokens(pieces: seq<bytes>, collected: set<bytes>, ghost before: seq<bytes>)
    returns (r: Option<set<bytes>>)
    requires TokenSet(before) == Some(collected)
    ensures r == TokenSet(before + StripAll(pieces))
  {
    var tokens := collected;
    ghost var items := StripAll(pieces);
    assert before + items[..0] == before;
    for j := 0 to |pieces|
      invariant TokenSet(before + items[..j]) == Some(tokens)
    {
      var token := Lower(Strip(pieces[j]));
      TokenSetStep(before, items, j);
      if token == [] || !IsToken(token) {
        return None;
      }
      tokens := tokens + {token};
    }
    assert items[..|pieces|] == items;
    return Some(tokens);
  }

  /** The lengths are what the items say in decimal. */
  predicate SpelledBy(lengths: seq<nat>, items: seq<bytes>) {
    && |lengths| == |items|
    && forall k :: 0 <= k < |items| ==> Readable(items[k]) && DecimalValue(items[k]) == lengths[k]
  }

  /** The inner loop: the comma-separated lengths of one value, unless one is none. */
  method ValueLengths(pieces: seq<bytes>) returns (refusal: Option<HeadError>, lengths: seq<nat>)
    ensures refusal == Refusal(StripAll(pieces))
    ensures refusal.None? ==> SpelledBy(lengths, StripAll(pieces))
  {
    lengths := [];
    ghost var items := StripAll(pieces);
    for j := 0 to |pieces|
      invariant SpelledBy(lengths, items[..j]) && Refusal(items[..j]).None?
    {
      var item := Strip(pieces[j]);
      assert item == items[j] && items[..j + 1] == items[..j] + [item];
      if !Readable(item) {
        RefusalStays(items, j + 1);
      }
      if item == [] || !AllDigits(item) {
        return Some(InvalidContentLength), [];
      }
      if |item| > MAX_INT_DIGITS {
        return Some(TooManyDigits), [];
      }
      lengths := lengths + [DecimalValue(item)];
    }
    assert items[..|pieces|] == items;
    refusal := None;
  }

  method ContentLength(values: seq<bytes>) returns (r: Result<Option<nat>, HeadError>)
    ensures r == LengthOf(Items(values))
  {
    var lengths: seq<nat> := [];
    for i := 0 to |values|
      invariant SpelledBy(lengths, Items(values[..i]))
    {
      var refusal, more := ValueLengths(Split(values[i], ","));
      ItemsStep(values, i);
      if refusal.Some? {
        RefusedAt(values, i, lengths);
        return Err(refusal.value);
      }
      lengths := lengths + more;
    }
    assert values[..|values|] == values;
    LengthFromSpelled(lengths, Items(values));
    if lengths == [] {
      return Ok(None);
    }
    if exists k :: 1 <= k < |lengths| && lengths[k] != lengths[0] {
      return Err(ConflictingContentLength);
    }
    return Ok(Some(lengths[0]));
  }

  /** The loop that parses header lines and indexes their stripped values by name. */
  method ReadHeaders(lines: seq<bytes>) returns (ok: bool, headers: seq<Header>, byName: map<bytes, seq<bytes>>)
    ensures ok <==> AllHeaders(lines)
    ensures ok ==> headers == Headers(lines) && Indexes(byName, headers)
  {
    headers, byName := [], map[];
    for i := 0 to |lines|
      invariant AllHeaders(lines[..i]) && headers == Headers(lines[..i])
      invariant Indexes(byName, headers)
    {
      var parsed := ParseHeader(lines[i]);
      if parsed.None? {
        return false, [], map[];
      }
      var header := parsed.value;
      HeadersSnoc(lines, i);
      IndexSnoc(byName, headers, header);
      headers := headers + [header];
      byName := byName[header.name := Lookup(byName, header.name) + [Strip(header.value)]];
    }
    assert lines[..|lines|] == lines;
    return true, headers, byName;
  }

  lemma HeadersSnoc(lines: seq<bytes>, i: nat)
    requires i < |lines| && AllHeaders(lines[..i]) && ParseHeader(lines[i]).Some?
    ensures AllHeaders(lines[..i + 1]) && Headers(lines[..i + 1]) == Headers(lines[..i]) + [ParseHeader(lines[i]).value]
  {
    assert forall k :: 0 <= k < i ==> lines[..i + 1][k] == lines[..i][k];
  }

  ghost predicate Indexes(byName: map<bytes, seq<bytes>>, headers: seq<Header>) {
    forall n: bytes :: Lookup(byName, n) == ValuesOf(headers, n) && (n in byName ==> byName[n] != [])
  }

  function Lookup(byName: map<bytes, seq<bytes>>, name: bytes): seq<bytes> {
    if name in byName then byName[name] else []
  }

  lemma IndexSnoc(byName: map<bytes, seq<bytes>>, headers: seq<Header>, header: Header)
    requires Indexes(byName, headers)
    ensures Indexes(byName[header.name := Lookup(byName, header.name) + [Strip(header.value)]], headers + [header])
  {
    assert (headers + [header])[..|headers|] == headers;
    forall n: bytes ensures ValuesOf(headers + [header], n)
                      == ValuesOf(headers, n) + if header.name == n then [Strip(header.value)] else []
    {
    }
  }

  method RewriteAndFrame(head: bytes, key: bytes) returns (r: Result<Framed, HeadError>)
    ensures r == Rewrite(head, key)
  {
    if |head| < 4 || head[|head| - 4..] != CRLFCRLF {
      return Err(IncompleteHead);
    }
    var lines := Split(head[..|head| - 4], CRLF);
    var parts := Split(lines[0], " ");
    if |parts| != 3 || parts[0] == [] || parts[1] == [] || (parts[2] != "HTTP/1.0" && parts[2] != "HTTP/1.1") {
      return Err(InvalidRequestLine);
    }
    var ok, headers, byName := ReadHeaders(lines[1..]);
    if !ok {
      return Err(InvalidHeader);
    }
    var plan := DecideFraming(parts[0], Fields(Lookup(byName, "connection"), Lookup(byName, "transfer-encoding"),
                                                Lookup(byName, "content-length"), Lookup(byName, "upgrade")));
    if plan.Err? {
      return Err(plan.error);
    }
    var p := plan.value;
    var rewritten := Assemble(lines[0], headers, p.tokens, p.upgrade, key);
    return Ok(Framed(rewritten, p.body, p.length, p.closeAfter));
  }

  /** The last step: request line, kept lines, local key, connection option. */
  method Assemble(requestLine: bytes, headers: seq<Header>, tokens: set<bytes>, upgrade: bool, key: bytes)
    returns (r: bytes)
    ensures r == Render(requestLine, NewHeaders(headers, tokens, upgrade, key))
  {
    var kept := KeptLines(headers, tokens, upgrade);
    var rewritten := [requestLine] + kept + ["Authorization: Bearer " + key];
    if upgrade {
      rewritten := rewritten + ["Connection: Upgrade"];
    } else if "close" in tokens {
      rewritten := rewritten + ["Connection: close"];
    }
    NewLines(headers, tokens, upgrade, key);
    assert rewritten == [requestLine] + Lines(NewHeaders(headers, tokens, upgrade, key));
    return Join(rewritten, CRLF) + CRLFCRLF;
  }

  /** The loop that drops hop-by-hop headers and client credentials. */
  method KeptLines(headers: seq<Header>, tokens: set<bytes>, upgrade: bool) returns (rewritten: seq<bytes>)
    ensures rewritten == Lines(Kept(headers, tokens, upgrade))
  {
    rewritten := [];
    for i := 0 to |headers|
      invariant rewritten == Lines(Kept(headers[..i], tokens, upgrade))
    {
      assert headers[..i + 1][..i] == headers[..i];
      var h := headers[i];
      LinesConcat(Kept(headers[..i], tokens, upgrade), [h]);
      if h.name in ALWAYS_REMOVED || h.name in tokens {
        if upgrade && h.name == "upgrade" {
          rewritten := rewritten + [h.line];
        }
      } else if h.name == "upgrade" && !upgrade {
        continue;
      } else {
        rewritten := rewritten + [h.line];
      }
    }
    assert headers[..|headers|] == headers;
  }

  lemma NewLines(headers: seq<Header>, tokens: set<bytes>, upgrade: bool, key: bytes)
    ensures Lines(NewHeaders(headers, tokens, upgrade, key))
         == Lines(Kept(headers, tokens, upgrade)) + ["Authorization: Bearer " + key]
          + if upgrade then ["Connection: Upgrade"] else if "close" in tokens then ["Connection: close"] else []
  {
    LinesConcat(Kept(headers, tokens, upgrade), [AuthorizationHeader(key)]);
    LinesConcat(Kept(headers, tokens, upgrade) + [AuthorizationHeader(key)], ConnectionHeader(tokens, upgrade));
  }

  /** The straight-line middle of the rewriting. */
  method DecideFraming(methodName: bytes, fields: Fields) returns (r: Result<Plan, HeadError>)
    ensures r == Decide(methodName, fields)
  {
    var tokens := HeaderTokens(fields.connection);
    if tokens.None? {
      return Err(InvalidConnectionToken);
    }
    if tokens.value * FRAMING_HEADERS != {} {
      return Err(ConnectionNamesFramingHeader);
    }
    var length := ContentLength(fields.length);
    if length.Err? {
      return Err(length.error);
    }
    if fields.transfer != [] && length.value.Some? {
      return Err(BothFramings);
    }
    var body, bodyLength := NoBody, 0;
    if fields.transfer != [] {
      if !ChunkedLast(LowerAll(Items(fields.transfer))) {
        return Err(UnsupportedTransferEncoding);
      }
      body := ChunkedBody;
    } else if length.value.Some? && length.value.value > 0 {
      body, bodyLength := FixedBody, length.value.value;
    }
    var upgrade := "upgrade" in tokens.value && fields.upgrade != [];
    if upgrade || Upper(methodName) == "CONNECT" {
      body, bodyLength := RawBody, 0;
    }
    return Ok(Plan(tokens.value, upgrade, body, bodyLength, "close" in tokens.value && body != RawBody));
  }

  lemma LinesConcat(a: seq<Header>, b: seq<Header>)
    ensures Lines(a + b) == Lines(a) + Lines(b)
  {
  }

  lemma ItemsStep(values: seq<bytes>, i: nat)
    requires i < |values|
    ensures Items(values[..i + 1]) == Items(values[..i]) + StripAll(Split(values[i], ","))
  {
    assert values[..i + 1][..i] == values[..i];
  }

  /** A refusal is not taken back by later items. */
  lemma {:induction false} RefusalStays(items: seq<bytes>, n: nat)
    requires n <= |items| && Refusal(items[..n]).Some?
    ensures Refusal(items) == Refusal(items[..n])
    decreases |items|
  {
    if n < |items| {
      var most := items[..|items| - 1];
      assert most[..n] == items[..n];
      RefusalStays(most, n);
    } else {
      assert items[..n] == items;
    }
  }

  /** After items that are lengths, the refusal is that of the others. */
  lemma {:induction false} RefusalAfter(a: seq<bytes>, b: seq<bytes>)
    requires Refusal(a).None?
    ensures Refusal(a + b) == Refusal(b)
    decreases |b|
  {
    if b == [] {
      assert a + b == a;
    } else {
      RefusalAfter(a, b[..|b| - 1]);
      assert (a + b)[..|a + b| - 1] == a + b[..|b| - 1];
    }
  }

  lemma RefusedAt(values: seq<bytes>, i: nat, lengths: seq<nat>)
    requires i < |values| && SpelledBy(lengths, Items(values[..i]))
    requires Refusal(StripAll(Split(values[i], ","))).Some?
    ensures LengthOf(Items(values)) == Err(Refusal(StripAll(Split(values[i], ","))).value)
  {
    var before, more := Items(values[..i]), StripAll(Split(values[i], ","));
    EveryoneReadable(before);
    RefusalAfter(before, more);
    ItemsStep(values, i);
    ItemsPrefix(values, i + 1);
    assert Items(values)[..|before + more|] == before + more;
    RefusalStays(Items(values), |before + more|);
  }

  lemma LengthFromSpelled(lengths: seq<nat>, items: seq<bytes>)
    requires SpelledBy(lengths, items)
    ensures LengthOf(items)
         == if lengths == [] then Ok(None)
            else if exists k :: 1 <= k < |lengths| && lengths[k] != lengths[0] then Err(ConflictingContentLength)
            else Ok(Some(lengths[0]))
  {
    EveryoneReadable(items);
    if k :| 1 <= k < |lengths| && lengths[k] != lengths[0] {
      assert DecimalValue(items[k]) == lengths[k];
    }
  }

  lemma TokenSetStep(before: seq<bytes>, items: seq<bytes>, j: nat)
    requires j < |items| && TokenSet(before + items[..j]).Some?
    ensures IsToken(Lower(items[j])) ==>
              TokenSet(before + items[..j + 1]) == Some(TokenSet(before + items[..j]).value + {Lower(items[j])})
    ensures !IsToken(Lower(items[j])) ==> TokenSet(before + items).None?
  {
    var grown, rest := before + items[..j + 1], items[j + 1..];
    assert grown == before + items[..j] + [items[j]];
    OneMoreToken(before + items[..j], items[j]);
    assert grown + rest == before + items by { assert items == items[..j + 1] + rest; }
    TokenSetPrefix(grown, rest);
  }

  lemma OneMoreToken(items: seq<bytes>, item: bytes)
    requires TokenSet(items).Some?
    ensures TokenSet(items + [item])
         == if IsToken(Lower(item)) then Some(TokenSet(items).value + {Lower(item)}) else None
  {
    assert (items + [item])[..|items|] == items;
  }

  lemma {:induction false} TokenSetPrefix(a: seq<bytes>, b: seq<bytes>)
    ensures TokenSet(a).None? ==> TokenSet(a + b).None?
    decreases |b|
  {
    if b == [] {
      assert a + b == a;
    } else {
      TokenSetPrefix(a, b[..|b| - 1]);
      assert (a + b)[..|a + b| - 1] == a + b[..|b| - 1];
    }
  }

  lemma {:induction false} ItemsPrefix(values: seq<bytes>, n: nat)
    requires n <= |values|
    ensures |Items(values[..n])| <= |Items(values)|
    ensures Items(values) == Items(values[..n]) + Items(values)[|Items(values[..n])|..]
    decreases |values|
  {
    if n == |values| {
      assert values[..n] == values;
    } else {
      var most := values[..|values| - 1];
      ItemsPrefix(most, n);
      assert most[..n] == values[..n];
    }
  }
}
