/** Laws of the head rewriting: it is a fixed point, it swaps credentials and nothing else, and it grows little. */
module HeadLaws {
  import opened Wrappers
  import opened Bytes
  import opened RequestHead

  // ---------------------------------------------------------------- filtering

  lemma {:induction false} ValuesKept(headers: seq<Header>, tokens: set<bytes>, upgrade: bool, name: bytes)
    ensures ValuesOf(Kept(headers, tokens, upgrade), name)
         == if Keeps(name, tokens, upgrade) then ValuesOf(headers, name) else []
  {
    if headers != [] {
      var most, last := headers[..|headers| - 1], headers[|headers| - 1];
      ValuesKept(most, tokens, upgrade, name);
      assert Kept(most, tokens, upgrade) + [] == Kept(most, tokens, upgrade);
      ValuesSnoc(Kept(most, tokens, upgrade), last, name);
    }
  }

  lemma ValuesSnoc(headers: seq<Header>, last: Header, name: bytes)
    ensures ValuesOf(headers + [last], name)
         == ValuesOf(headers, name) + if last.name == name then [Strip(last.value)] else []
  {
    assert (headers + [last])[..|headers|] == headers;
  }

  lemma {:induction false} ValuesConcat(a: seq<Header>, b: seq<Header>, name: bytes)
    ensures ValuesOf(a + b, name) == ValuesOf(a, name) + ValuesOf(b, name)
    decreases |b|
  {
    if b == [] {
      assert a + b == a;
    } else {
      ValuesConcat(a, b[..|b| - 1], name);
      assert (a + b)[..|a + b| - 1] == a + b[..|b| - 1];
    }
  }

  lemma {:induction false} KeptConcat(a: seq<Header>, b: seq<Header>, tokens: set<bytes>, upgrade: bool)
    ensures Kept(a + b, tokens, upgrade) == Kept(a, tokens, upgrade) + Kept(b, tokens, upgrade)
    decreases |b|
  {
    if b == [] {
      assert a + b == a;
    } else {
      var most, last := b[..|b| - 1], b[|b| - 1];
      KeptConcat(a, most, tokens, upgrade);
      assert (a + b)[..|a + b| - 1] == a + most;
      var tail := if Keeps(last.name, tokens, upgrade) then [last] else [];
      assert Kept(a, tokens, upgrade) + Kept(most, tokens, upgrade) + tail
          == Kept(a, tokens, upgrade) + (Kept(most, tokens, upgrade) + tail);
    }
  }

  lemma {:induction false} KeptAll(headers: seq<Header>, tokens: set<bytes>, upgrade: bool)
    requires forall h :: h in headers ==> Keeps(h.name, tokens, upgrade)
    ensures Kept(headers, tokens, upgrade) == headers
  {
    if headers != [] {
      var most, last := headers[..|headers| - 1], headers[|headers| - 1];
      assert headers == most + [last];
      assert last in headers;
      forall h | h in most ensures Keeps(h.name, tokens, upgrade) {
        assert h in headers;
      }
      KeptAll(most, tokens, upgrade);
    }
  }

  // ---------------------------------------------------------------- rendering and reading back

  ghost predicate WellFormed(headers: seq<Header>) {
    forall h :: h in headers ==> Find(h.line, CRLF) < 0 && ParseHeader(h.line) == Some(h)
  }

  lemma ParsedAreWellFormed(lines: seq<bytes>)
    requires AllHeaders(lines) && forall l :: l in lines ==> Find(l, CRLF) < 0
    ensures WellFormed(Headers(lines))
  {
  }

  /** A rendered head splits back into its request line and headers, and its end is its first blank line. */
  lemma RenderReadsBack(requestLine: bytes, headers: seq<Header>)
    requires requestLine != [] && Find(requestLine, CRLF) < 0 && WellFormed(headers)
    ensures var head := Render(requestLine, headers);
            && |head| >= 4 && head[|head| - 4..] == CRLFCRLF
            && Split(head[..|head| - 4], CRLF) == [requestLine] + Lines(headers)
            && Find(head, CRLFCRLF) == |head| - 4
  {
    var lines := [requestLine] + Lines(headers);
    var head := Render(requestLine, headers);
    RenderedLines(requestLine, headers);
    SplitJoinLines(lines);
    FindHeadEnd(lines);
    assert head[..|head| - 4] == Join(lines, CRLF);
  }

  lemma RenderedLines(requestLine: bytes, headers: seq<Header>)
    requires requestLine != [] && Find(requestLine, CRLF) < 0 && WellFormed(headers)
    ensures forall l :: l in [requestLine] + Lines(headers) ==> l != [] && Find(l, CRLF) < 0
    ensures AllHeaders(Lines(headers)) && Headers(Lines(headers)) == headers
  {
    assert forall i :: 0 <= i < |headers| ==> headers[i] in headers;
  }

  lemma HeaderReadsBack(name: bytes, lower: bytes, value: bytes, line: bytes)
    requires IsToken(name) && Lower(name) == lower && '\r' !in value
    requires line == name + [':'] + value
    ensures WellFormed([Header(lower, value, line)])
  {
    NameReadsBack(name, value, line);
    TokenChars(name);
    assert '\r' !in name + [':'] + value;
    FindAbsent(line, '\r', CRLF);
  }

  lemma NameReadsBack(name: bytes, value: bytes, line: bytes)
    requires IsToken(name) && line == name + [':'] + value
    ensures ParseHeader(line) == Some(Header(Lower(name), value, line))
  {
    TokenChars(name);
    FindColon(name, value, line);
    assert line[..|name|] == name && line[|name| + 1..] == value;
    StripTrimmed(name);
  }

  lemma FindColon(name: bytes, value: bytes, line: bytes)
    requires ':' !in name && line == name + [':'] + value
    ensures Find(line, ":") == |name|
  {
    assert ":" == [':'];
    FindByte(name, ':', value);
  }

  lemma TokenChars(s: bytes)
    requires IsToken(s)
    ensures forall i :: 0 <= i < |s| ==> !IsSpace(s[i])
    ensures ':' !in s && '\r' !in s && ',' !in s
  {
    forall i | 0 <= i < |s| ensures !IsSpace(s[i]) && s[i] !in {':', '\r', ','} {
      assert IsTokenChar(s[i]);
    }
  }

  lemma AuthorizationReadsBack(key: bytes)
    requires ValidKey(key)
    ensures WellFormed([AuthorizationHeader(key)])
  {
    var name: bytes := "Authorization";
    assert Lower(name) == "authorization" && name + [':'] + " Bearer " == "Authorization: Bearer ";
    var line := AuthorizationHeader(key).line;
    assert line == name + [':'] + (" Bearer " + key);
    HeaderReadsBack(name, "authorization", " Bearer " + key, line);
  }

  lemma ConnectionReadsBack(tokens: set<bytes>, upgrade: bool)
    ensures WellFormed(ConnectionHeader(tokens, upgrade))
  {
    var name: bytes := "Connection";
    assert Lower(name) == "connection";
    assert name + [':'] + " Upgrade" == "Connection: Upgrade" && name + [':'] + " close" == "Connection: close";
    if upgrade {
      HeaderReadsBack(name, "connection", " Upgrade", "Connection: Upgrade");
    } else if "close" in tokens {
      HeaderReadsBack(name, "connection", " close", "Connection: close");
    }
  }

  lemma NewHeadersWellFormed(headers: seq<Header>, tokens: set<bytes>, upgrade: bool, key: bytes)
    requires WellFormed(headers) && ValidKey(key)
    ensures WellFormed(NewHeaders(headers, tokens, upgrade, key))
  {
    AuthorizationReadsBack(key);
    ConnectionReadsBack(tokens, upgrade);
    assert AuthorizationHeader(key) in [AuthorizationHeader(key)];
  }

  // ---------------------------------------------------------------- the plan of a rewritten head

  /** The connection options that survive the rewriting. */
  function NewTokens(tokens: set<bytes>, upgrade: bool): set<bytes> {
    if upgrade then {"upgrade"} else if "close" in tokens then {"close"} else {}
  }

  lemma NewValues(headers: seq<Header>, tokens: set<bytes>, upgrade: bool, key: bytes, name: bytes)
    requires name != "authorization" && name != "connection"
    ensures ValuesOf(NewHeaders(headers, tokens, upgrade, key), name)
         == if Keeps(name, tokens, upgrade) then ValuesOf(headers, name) else []
  {
    var auth, option := [AuthorizationHeader(key)], ConnectionHeader(tokens, upgrade);
    ValuesKept(headers, tokens, upgrade, name);
    ValuesConcat(Kept(headers, tokens, upgrade), auth, name);
    ValuesConcat(Kept(headers, tokens, upgrade) + auth, option, name);
    NoValues(auth, name);
    NoValues(option, name);
  }

  lemma {:induction false} NoValues(headers: seq<Header>, name: bytes)
    requires forall h :: h in headers ==> h.name != name
    ensures ValuesOf(headers, name) == []
  {
    if headers != [] {
      NoValues(headers[..|headers| - 1], name);
    }
  }

  lemma ConnectionValues(headers: seq<Header>, tokens: set<bytes>, upgrade: bool, key: bytes)
    ensures ValuesOf(NewHeaders(headers, tokens, upgrade, key), "connection")
         == ValuesOf(ConnectionHeader(tokens, upgrade), "connection")
  {
    var auth := [AuthorizationHeader(key)];
    ValuesKept(headers, tokens, upgrade, "connection");
    ValuesConcat(Kept(headers, tokens, upgrade), auth, "connection");
    ValuesConcat(Kept(headers, tokens, upgrade) + auth, ConnectionHeader(tokens, upgrade), "connection");
  }

  lemma NewConnectionTokens(tokens: set<bytes>, upgrade: bool)
    ensures TokenSet(Items(ValuesOf(ConnectionHeader(tokens, upgrade), "connection")))
         == Some(NewTokens(tokens, upgrade))
  {
    if upgrade {
      assert Lower("Upgrade") == "upgrade";
      OneValue("connection", " Upgrade", "Connection: Upgrade", "Upgrade", "upgrade");
    } else if "close" in tokens {
      assert Lower("close") == "close";
      OneValue("connection", " close", "Connection: close", "close", "close");
    }
  }

  lemma OneValue(name: bytes, value: bytes, line: bytes, token: bytes, lower: bytes)
    requires value == [' '] + token && IsToken(token) && Lower(token) == lower
    ensures TokenSet(Items(ValuesOf([Header(name, value, line)], name))) == Some({lower})
  {
    ValuesSnoc([], Header(name, value, line), name);
    assert [] + [Header(name, value, line)] == [Header(name, value, line)];
    OneToken(value, token);
    assert ValuesOf([Header(name, value, line)], name) == [token];
  }

  /** A value that is one token, with a space before it. */
  lemma OneToken(value: bytes, token: bytes)
    requires value == [' '] + token && IsToken(token)
    ensures Strip(value) == token && TokenSet(Items([token])) == Some({Lower(token)})
  {
    assert forall i :: 0 <= i < |token| ==> IsTokenChar(token[i]);
    StripTrimmed(token);
    assert value[1..] == token;
    OneItem(token);
    OneTokenSet(token);
  }

  lemma OneItem(token: bytes)
    requires IsToken(token) && Strip(token) == token
    ensures Items([token]) == [token]
  {
    assert forall i :: 0 <= i < |token| ==> IsTokenChar(token[i]);
    FindAbsent(token, ',', ",");
    assert Split(token, ",") == [token];
    assert StripAll([token]) == [token];
    assert [token][..0] == [];
    assert Items([token]) == [] + [token] == [token];
  }

  lemma OneTokenSet(token: bytes)
    requires IsToken(token)
    ensures TokenSet([token]) == Some({Lower(token)})
  {
    LowerToken(token);
    assert [token][..0] == [];
    assert TokenSet([]) == Some({});
    assert TokenSet([token]) == Some({} + {Lower(token)});
    assert {} + {Lower(token)} == {Lower(token)};
  }

  lemma LowerToken(s: bytes)
    requires IsToken(s)
    ensures IsToken(Lower(s))
  {
    assert forall i :: 0 <= i < |s| ==> IsTokenChar(s[i]) && IsTokenChar(LowerByte(s[i]));
  }

  /** The rewritten headers are framed exactly as the original ones. */
  lemma DecideAgain(methodName: bytes, headers: seq<Header>, p: Plan, key: bytes)
    requires Decide(methodName, FieldsOf(headers)) == Ok(p)
    ensures Decide(methodName, FieldsOf(NewHeaders(headers, p.tokens, p.upgrade, key)))
         == Ok(p.(tokens := NewTokens(p.tokens, p.upgrade)))
  {
    var before, after := FieldsOf(headers), FieldsOf(NewHeaders(headers, p.tokens, p.upgrade, key));
    NewFields(headers, p.tokens, p.upgrade, key);
    NewConnectionTokens(p.tokens, p.upgrade);
    SameFraming(methodName, before, after, p);
  }

  lemma NewFields(headers: seq<Header>, tokens: set<bytes>, upgrade: bool, key: bytes)
    requires tokens * FRAMING_HEADERS == {}
    ensures FieldsOf(NewHeaders(headers, tokens, upgrade, key))
         == FieldsOf(headers).(connection := ValuesOf(ConnectionHeader(tokens, upgrade), "connection"),
                               upgrade := if upgrade then ValuesOf(headers, "upgrade") else [])
  {
    var after := NewHeaders(headers, tokens, upgrade, key);
    ConnectionValues(headers, tokens, upgrade, key);
    FramingSurvives(tokens, upgrade);
    TransferValues(headers, tokens, upgrade, key);
    LengthValues(headers, tokens, upgrade, key);
    UpgradeValues(headers, tokens, upgrade, key);
    assert FieldsOf(after).connection == ValuesOf(ConnectionHeader(tokens, upgrade), "connection");
  }

  lemma TransferValues(headers: seq<Header>, tokens: set<bytes>, upgrade: bool, key: bytes)
    requires Keeps("transfer-encoding", tokens, upgrade)
    ensures FieldsOf(NewHeaders(headers, tokens, upgrade, key)).transfer == FieldsOf(headers).transfer
  {
    NewValues(headers, tokens, upgrade, key, "transfer-encoding");
  }

  lemma LengthValues(headers: seq<Header>, tokens: set<bytes>, upgrade: bool, key: bytes)
    requires Keeps("content-length", tokens, upgrade)
    ensures FieldsOf(NewHeaders(headers, tokens, upgrade, key)).length == FieldsOf(headers).length
  {
    NewValues(headers, tokens, upgrade, key, "content-length");
  }

  lemma UpgradeValues(headers: seq<Header>, tokens: set<bytes>, upgrade: bool, key: bytes)
    requires Keeps("upgrade", tokens, upgrade) == upgrade
    ensures FieldsOf(NewHeaders(headers, tokens, upgrade, key)).upgrade
         == if upgrade then ValuesOf(headers, "upgrade") else []
  {
    NewValues(headers, tokens, upgrade, key, "upgrade");
  }

  lemma SameFraming(methodName: bytes, before: Fields, after: Fields, p: Plan)
    requires Decide(methodName, before) == Ok(p)
    requires TokenSet(Items(after.connection)) == Some(NewTokens(p.tokens, p.upgrade))
    requires after.transfer == before.transfer && after.length == before.length
    requires after.upgrade == if p.upgrade then before.upgrade else []
    ensures Decide(methodName, after) == Ok(p.(tokens := NewTokens(p.tokens, p.upgrade)))
  {
    NewTokensFacts(p.tokens, p.upgrade);
  }

  lemma FramingSurvives(tokens: set<bytes>, upgrade: bool)
    requires tokens * FRAMING_HEADERS == {}
    ensures Keeps("transfer-encoding", tokens, upgrade) && Keeps("content-length", tokens, upgrade)
  {
    assert "transfer-encoding" in FRAMING_HEADERS && "content-length" in FRAMING_HEADERS;
  }

  lemma NewTokensFacts(tokens: set<bytes>, upgrade: bool)
    ensures NewTokens(tokens, upgrade) * FRAMING_HEADERS == {}
    ensures "close" in NewTokens(tokens, upgrade) <==> "close" in tokens && !upgrade
    ensures "upgrade" in NewTokens(tokens, upgrade) <==> upgrade
  {
    assert "upgrade" !in FRAMING_HEADERS && "close" !in FRAMING_HEADERS && "close" != "upgrade";
  }

  // ---------------------------------------------------------------- laws of the whole rewriting

  /** `head` is these bytes: a request line, these header lines, a blank line. */
  ghost predicate Reads(head: bytes, requestLine: bytes, headers: seq<Header>) {
    && requestLine != [] && Find(requestLine, CRLF) < 0 && WellFormed(headers)
    && ValidRequestLine(Split(requestLine, " "))
    && head == Render(requestLine, headers)
  }

  /** An accepted head is a rendered one, and the rewriting renders the new headers under the same request line. */
  lemma Decompose(head: bytes, key: bytes) returns (requestLine: bytes, headers: seq<Header>, p: Plan)
    requires Rewrite(head, key).Ok?
    ensures Reads(head, requestLine, headers)
    ensures Decide(Split(requestLine, " ")[0], FieldsOf(headers)) == Ok(p)
    ensures Rewrite(head, key)
         == Ok(Framed(Render(requestLine, NewHeaders(headers, p.tokens, p.upgrade, key)),
                      p.body, p.length, p.closeAfter))
  {
    var lines := Split(head[..|head| - 4], CRLF);
    requestLine := lines[0];
    headers := Headers(lines[1..]);
    p := RewritePlan(head, key, lines);
    SplitIsRendered(head);
    RequestLineLength(Split(requestLine, " "), requestLine, " ");
  }

  lemma RewritePlan(head: bytes, key: bytes, lines: seq<bytes>) returns (p: Plan)
    requires Rewrite(head, key).Ok? && lines == Split(head[..|head| - 4], CRLF)
    ensures head[|head| - 4..] == CRLFCRLF && ValidRequestLine(Split(lines[0], " ")) && AllHeaders(lines[1..])
    ensures var headers := Headers(lines[1..]);
            && Decide(Split(lines[0], " ")[0], FieldsOf(headers)) == Ok(p)
            && Rewrite(head, key) == Ok(Framed(Render(lines[0], NewHeaders(headers, p.tokens, p.upgrade, key)),
                                               p.body, p.length, p.closeAfter))
  {
    p := Decide(Split(lines[0], " ")[0], FieldsOf(Headers(lines[1..]))).value;
  }

  lemma SplitIsRendered(head: bytes)
    requires |head| >= 4 && head[|head| - 4..] == CRLFCRLF
    requires AllHeaders(Split(head[..|head| - 4], CRLF)[1..])
    ensures var lines := Split(head[..|head| - 4], CRLF);
            WellFormed(Headers(lines[1..])) && head == Render(lines[0], Headers(lines[1..]))
  {
    var body := head[..|head| - 4];
    var lines := Split(body, CRLF);
    assert forall l :: l in lines[1..] ==> l in lines;
    var headers := Headers(lines[1..]);
    ParsedAreWellFormed(lines[1..]);
    assert Lines(headers) == lines[1..];
    assert [lines[0]] + Lines(headers) == lines;
    JoinSplit(body, CRLF);
    assert head == body + CRLFCRLF;
  }

  lemma RequestLineLength(parts: seq<bytes>, requestLine: bytes, sep: bytes)
    requires |sep| == 1 && parts == Split(requestLine, sep) && ValidRequestLine(parts)
    ensures |requestLine| >= 12
  {
    JoinSplit(requestLine, sep);
    JoinThree(parts, sep);
    assert |parts[2]| == 8;
  }

  lemma JoinThree(parts: seq<bytes>, sep: bytes)
    requires |parts| == 3
    ensures |Join(parts, sep)| == |parts[0]| + |sep| + |parts[1]| + |sep| + |parts[2]|
  {
    var two := parts[1..];
    var one := two[1..];
    assert Join(one, sep) == one[0] == parts[2];
    assert Join(two, sep) == two[0] + sep + Join(one, sep);
  }

  /** What reading a rendered head gives back. */
  lemma RewriteRendered(requestLine: bytes, headers: seq<Header>, p: Plan, key: bytes)
    requires requestLine != [] && Find(requestLine, CRLF) < 0 && WellFormed(headers)
    requires ValidRequestLine(Split(requestLine, " "))
    requires Decide(Split(requestLine, " ")[0], FieldsOf(headers)) == Ok(p)
    ensures Rewrite(Render(requestLine, headers), key)
         == Ok(Framed(Render(requestLine, NewHeaders(headers, p.tokens, p.upgrade, key)),
                      p.body, p.length, p.closeAfter))
  {
    RenderReadsBack(requestLine, headers);
    RenderedLines(requestLine, headers);
    assert ([requestLine] + Lines(headers))[1..] == Lines(headers);
  }

  lemma NewHeadersAgain(headers: seq<Header>, tokens: set<bytes>, upgrade: bool, key: bytes)
    ensures NewHeaders(NewHeaders(headers, tokens, upgrade, key), NewTokens(tokens, upgrade), upgrade, key)
         == NewHeaders(headers, tokens, upgrade, key)
  {
    var again := NewTokens(tokens, upgrade);
    var kept := Kept(headers, tokens, upgrade);
    var option := ConnectionHeader(tokens, upgrade);
    KeptConcat(kept, [AuthorizationHeader(key)], again, upgrade);
    KeptConcat(kept + [AuthorizationHeader(key)], option, again, upgrade);
    forall h | h in kept ensures Keeps(h.name, again, upgrade) {
      KeepsAgain(h.name, tokens, upgrade);
    }
    KeptAll(kept, again, upgrade);
    OwnHeadersDropped(tokens, upgrade, key);
    SameOption(tokens, upgrade);
    assert kept + [] + [] == kept;
    assert Kept(NewHeaders(headers, tokens, upgrade, key), again, upgrade) == kept;
  }

  lemma SameOption(tokens: set<bytes>, upgrade: bool)
    ensures ConnectionHeader(NewTokens(tokens, upgrade), upgrade) == ConnectionHeader(tokens, upgrade)
  {
    NewTokensFacts(tokens, upgrade);
  }

  lemma KeepsAgain(name: bytes, tokens: set<bytes>, upgrade: bool)
    requires Keeps(name, tokens, upgrade)
    ensures Keeps(name, NewTokens(tokens, upgrade), upgrade)
  {
  }

  lemma OwnHeadersDropped(tokens: set<bytes>, upgrade: bool, key: bytes)
    ensures Kept([AuthorizationHeader(key)], NewTokens(tokens, upgrade), upgrade) == []
    ensures Kept(ConnectionHeader(tokens, upgrade), NewTokens(tokens, upgrade), upgrade) == []
  {
    assert !Keeps("authorization", NewTokens(tokens, upgrade), upgrade);
    assert !Keeps("connection", NewTokens(tokens, upgrade), upgrade);
    assert Kept([], NewTokens(tokens, upgrade), upgrade) == [];
  }

  /**
   * Rewriting is a fixed point: a rewritten head, rewritten again with the same key, comes back byte for byte
   * with the same framing, and it still ends at its first blank line.
   */
  lemma RewriteIsFixedPoint(head: bytes, key: bytes)
    requires ValidKey(key) && Rewrite(head, key).Ok?
    ensures Rewrite(Rewrite(head, key).value.rewritten, key) == Rewrite(head, key)
    ensures Find(Rewrite(head, key).value.rewritten, CRLFCRLF) == |Rewrite(head, key).value.rewritten| - 4
  {
    var requestLine, headers, p := Decompose(head, key);
    var next := NewHeaders(headers, p.tokens, p.upgrade, key);
    NewHeadersWellFormed(headers, p.tokens, p.upgrade, key);
    DecideAgain(Split(requestLine, " ")[0], headers, p, key);
    RewriteRendered(requestLine, next, p.(tokens := NewTokens(p.tokens, p.upgrade)), key);
    NewHeadersAgain(headers, p.tokens, p.upgrade, key);
    RenderReadsBack(requestLine, next);
  }

  // ---------------------------------------------------------------- what reaches the other side

  /** The headers of a complete head. */
  function HeadersIn(head: bytes): seq<Header> {
    if |head| < 4 || !AllHeaders(Split(head[..|head| - 4], CRLF)[1..]) then []
    else Headers(Split(head[..|head| - 4], CRLF)[1..])
  }

  /** The connection options of a head: the headers its sender wants dropped at the first hop. */
  function OptionsIn(head: bytes): set<bytes> {
    var named := TokenSet(Items(ValuesOf(HeadersIn(head), "connection")));
    if named.Some? then named.value else {}
  }

  lemma HeadersOfRender(requestLine: bytes, headers: seq<Header>)
    requires requestLine != [] && Find(requestLine, CRLF) < 0 && WellFormed(headers)
    ensures HeadersIn(Render(requestLine, headers)) == headers
  {
    RenderReadsBack(requestLine, headers);
    RenderedLines(requestLine, headers);
    assert ([requestLine] + Lines(headers))[1..] == Lines(headers);
  }

  lemma RewrittenHeaders(head: bytes, key: bytes) returns (headers: seq<Header>, p: Plan)
    requires ValidKey(key) && Rewrite(head, key).Ok?
    ensures headers == HeadersIn(head) && p.tokens == OptionsIn(head)
    ensures p.upgrade <==> "upgrade" in OptionsIn(head) && ValuesOf(headers, "upgrade") != []
    ensures HeadersIn(Rewrite(head, key).value.rewritten) == NewHeaders(headers, p.tokens, p.upgrade, key)
  {
    var requestLine, hs, plan := Decompose(head, key);
    headers, p := hs, plan;
    HeadersOfRender(requestLine, headers);
    PlanNames(Split(requestLine, " ")[0], FieldsOf(headers), p);
    OptionsOf(head, headers, p.tokens);
    NewHeadersWellFormed(headers, p.tokens, p.upgrade, key);
    HeadersOfRender(requestLine, NewHeaders(headers, p.tokens, p.upgrade, key));
  }

  lemma ConnectionOf(headers: seq<Header>)
    ensures FieldsOf(headers).connection == ValuesOf(headers, "connection")
  {
  }

  lemma PlanNames(methodName: bytes, fields: Fields, p: Plan)
    requires Decide(methodName, fields) == Ok(p)
    ensures TokenSet(Items(fields.connection)) == Some(p.tokens)
    ensures p.upgrade <==> "upgrade" in p.tokens && fields.upgrade != []
  {
  }

  lemma OptionsOf(head: bytes, headers: seq<Header>, tokens: set<bytes>)
    requires HeadersIn(head) == headers && TokenSet(Items(FieldsOf(headers).connection)) == Some(tokens)
    ensures OptionsIn(head) == tokens
  {
  }

  /** Whatever credentials the client sent, the upstream sees the local key and no other. */
  lemma OnlyTheLocalKeyLeaves(head: bytes, key: bytes, h: Header)
    requires ValidKey(key) && Rewrite(head, key).Ok?
    requires h in HeadersIn(Rewrite(head, key).value.rewritten)
    ensures h.name == "authorization" ==> h == AuthorizationHeader(key)
    ensures h.name !in {"proxy-authorization", "proxy-connection", "keep-alive", "te"}
    ensures h.name in OptionsIn(head) ==> h.name == "upgrade" || h.name == "connection" || h == AuthorizationHeader(key)
  {
    var headers, p := RewrittenHeaders(head, key);
    if h in Kept(headers, p.tokens, p.upgrade) {
      KeptNames(h.name, p.tokens, p.upgrade);
    } else if h in ConnectionHeader(p.tokens, p.upgrade) {
      assert h.name == "connection";
    } else {
      assert h == AuthorizationHeader(key);
    }
  }

  lemma KeptNames(name: bytes, tokens: set<bytes>, upgrade: bool)
    requires Keeps(name, tokens, upgrade)
    ensures name != "authorization" && name !in {"proxy-authorization", "proxy-connection", "keep-alive", "te"}
    ensures name in tokens ==> name == "upgrade"
  {
  }

  /** Every end-to-end header arrives with the values it was sent with, in order. */
  lemma EndToEndHeadersUnchanged(head: bytes, key: bytes, name: bytes)
    requires ValidKey(key) && Rewrite(head, key).Ok?
    requires name !in ALWAYS_REMOVED && name !in OptionsIn(head) && name != "upgrade"
    ensures ValuesOf(HeadersIn(Rewrite(head, key).value.rewritten), name) == ValuesOf(HeadersIn(head), name)
  {
    var headers, p := RewrittenHeaders(head, key);
    NewValues(headers, p.tokens, p.upgrade, key, name);
  }

  // ---------------------------------------------------------------- size

  /** Bytes of the header lines, each with its CRLF. */
  function LineBytes(headers: seq<Header>): nat {
    if headers == [] then 0
    else LineBytes(headers[..|headers| - 1]) + |headers[|headers| - 1].line| + 2
  }

  lemma {:induction false} LineBytesConcat(a: seq<Header>, b: seq<Header>)
    ensures LineBytes(a + b) == LineBytes(a) + LineBytes(b)
    decreases |b|
  {
    if b == [] {
      assert a + b == a;
    } else {
      LineBytesConcat(a, b[..|b| - 1]);
      assert (a + b)[..|a + b| - 1] == a + b[..|b| - 1];
    }
  }

  lemma {:induction false} JoinLength(first: bytes, headers: seq<Header>)
    ensures |Join([first] + Lines(headers), CRLF)| == |first| + LineBytes(headers)
    decreases |headers|
  {
    var lines := [first] + Lines(headers);
    if headers == [] {
      assert lines == [first];
    } else {
      var head, rest := headers[0], headers[1..];
      assert headers == [head] + rest;
      LineBytesConcat([head], rest);
      assert [head][..0] == [];
      assert LineBytes([head]) == |head.line| + 2;
      JoinLength(head.line, rest);
      assert lines[1..] == [head.line] + Lines(rest);
    }
  }

  /** Dropping a header saves its line. */
  lemma {:induction false} KeptIsShorter(headers: seq<Header>, tokens: set<bytes>, upgrade: bool)
    ensures LineBytes(Kept(headers, tokens, upgrade)) <= LineBytes(headers)
    ensures forall h :: h in headers && !Keeps(h.name, tokens, upgrade) ==>
                          LineBytes(Kept(headers, tokens, upgrade)) + |h.line| + 2 <= LineBytes(headers)
  {
    if headers != [] {
      var most, last := headers[..|headers| - 1], headers[|headers| - 1];
      KeptIsShorter(most, tokens, upgrade);
      OneLine(Kept(most, tokens, upgrade), last);
      assert Kept(most, tokens, upgrade) + [] == Kept(most, tokens, upgrade);
      forall h | h in headers && !Keeps(h.name, tokens, upgrade)
        ensures LineBytes(Kept(headers, tokens, upgrade)) + |h.line| + 2 <= LineBytes(headers)
      {
        assert h in most || h == last;
      }
    }
  }

  lemma OneLine(headers: seq<Header>, last: Header)
    ensures LineBytes(headers + [last]) == LineBytes(headers) + |last.line| + 2
  {
    LineBytesConcat(headers, [last]);
    assert [last][..0] == [];
    assert LineBytes([last]) == |last.line| + 2;
  }

  /** An option that was named was spelled out in some header line. */
  lemma TokenHasItsLine(headers: seq<Header>, name: bytes, items: seq<bytes>, token: bytes) returns (h: Header)
    requires WellFormed(headers) && items == Items(ValuesOf(headers, name))
    requires TokenSet(items).Some? && token in TokenSet(items).value
    ensures h in headers && h.name == name && |h.line| >= |name| + 1 + |token|
  {
    var item := TokenHasItem(items, token);
    var value := ItemHasValue(ValuesOf(headers, name), item);
    h := ValueHasHeader(headers, name, value);
    LineLength(h);
  }

  lemma LineLength(h: Header)
    requires ParseHeader(h.line) == Some(h)
    ensures |h.line| == |h.name| + 1 + |h.value|
  {
  }

  lemma {:induction false} TokenHasItem(items: seq<bytes>, token: bytes) returns (item: bytes)
    requires TokenSet(items).Some? && token in TokenSet(items).value
    ensures item in items && Lower(item) == token
  {
    if Lower(items[|items| - 1]) == token {
      item := items[|items| - 1];
    } else {
      item := TokenHasItem(items[..|items| - 1], token);
    }
  }

  lemma {:induction false} ItemHasValue(values: seq<bytes>, item: bytes) returns (value: bytes)
    requires item in Items(values)
    ensures value in values && |item| <= |value|
  {
    var last := values[|values| - 1];
    if item in StripAll(Split(last, ",")) {
      value := last;
      var i :| 0 <= i < |Split(last, ",")| && item == Strip(Split(last, ",")[i]);
      PieceIsShorter(last, ",", i);
    } else {
      value := ItemHasValue(values[..|values| - 1], item);
    }
  }

  lemma {:induction false} PieceIsShorter(s: bytes, sep: bytes, i: nat)
    requires sep != [] && i < |Split(s, sep)|
    ensures |Split(s, sep)[i]| <= |s|
    decreases |s|
  {
    var at := Find(s, sep);
    if at >= 0 && i > 0 {
      var rest := s[at + |sep|..];
      PieceIsShorter(rest, sep, i - 1);
      assert Split(s, sep)[i] == Split(rest, sep)[i - 1];
    }
  }

  lemma {:induction false} ValueHasHeader(headers: seq<Header>, name: bytes, value: bytes) returns (h: Header)
    requires value in ValuesOf(headers, name)
    ensures h in headers && h.name == name && |value| <= |h.value|
  {
    var last := headers[|headers| - 1];
    if last.name == name && value == Strip(last.value) {
      h := last;
    } else {
      h := ValueHasHeader(headers[..|headers| - 1], name, value);
    }
  }

  /** The byte by which a head with room for a Connection header may grow beyond the key's line. */
  function Extra(head: bytes): nat {
    if |head| >= 34 then 1 else 0
  }

  /** A head has at least 16 bytes; rewriting adds at most the key, 24 bytes and, to a longer head, one more. */
  lemma RewriteGrowth(head: bytes, key: bytes)
    requires Rewrite(head, key).Ok?
    ensures |head| >= 16
    ensures |Rewrite(head, key).value.rewritten| <= |head| + |key| + 24 + Extra(head)
  {
    var requestLine, headers, p := Decompose(head, key);
    RequestLineLength(Split(requestLine, " "), requestLine, " ");
    var next := NewHeaders(headers, p.tokens, p.upgrade, key);
    JoinLength(requestLine, headers);
    JoinLength(requestLine, next);
    PlanNames(Split(requestLine, " ")[0], FieldsOf(headers), p);
    ConnectionOf(headers);
    NewHeadersGrowth(headers, p.tokens, p.upgrade, key);
  }

  lemma NewHeadersGrowth(headers: seq<Header>, tokens: set<bytes>, upgrade: bool, key: bytes)
    requires WellFormed(headers)
    requires TokenSet(Items(ValuesOf(headers, "connection"))) == Some(tokens)
    requires upgrade ==> "upgrade" in tokens
    ensures LineBytes(NewHeaders(headers, tokens, upgrade, key))
         <= LineBytes(headers) + |key| + 24 + if LineBytes(headers) >= 18 then 1 else 0
  {
    var kept, option := Kept(headers, tokens, upgrade), ConnectionHeader(tokens, upgrade);
    OneLine(kept, AuthorizationHeader(key));
    LineBytesConcat(kept + [AuthorizationHeader(key)], option);
    assert |AuthorizationHeader(key).line| == |key| + 22;
    OptionCosts(headers, tokens, upgrade);
  }

  /** What a Connection header of our own takes the ones it stands for have made room for, but for a byte. */
  lemma OptionCosts(headers: seq<Header>, tokens: set<bytes>, upgrade: bool)
    requires WellFormed(headers)
    requires TokenSet(Items(ValuesOf(headers, "connection"))) == Some(tokens)
    requires upgrade ==> "upgrade" in tokens
    ensures LineBytes(Kept(headers, tokens, upgrade)) + LineBytes(ConnectionHeader(tokens, upgrade))
         <= LineBytes(headers) + if LineBytes(headers) >= 18 then 1 else 0
  {
    KeptIsShorter(headers, tokens, upgrade);
    OptionBytes(tokens, upgrade);
    if upgrade {
      OptionMakesRoom(headers, Items(ValuesOf(headers, "connection")), tokens, upgrade, "upgrade");
    } else if "close" in tokens {
      OptionMakesRoom(headers, Items(ValuesOf(headers, "connection")), tokens, upgrade, "close");
    }
  }

  /** An option that was named has a Connection header line, and that line is dropped. */
  lemma OptionMakesRoom(headers: seq<Header>, items: seq<bytes>, tokens: set<bytes>, upgrade: bool, token: bytes)
    requires WellFormed(headers) && items == Items(ValuesOf(headers, "connection"))
    requires TokenSet(items) == Some(tokens) && token in tokens
    ensures LineBytes(Kept(headers, tokens, upgrade)) + 13 + |token| <= LineBytes(headers)
  {
    var h := TokenHasItsLine(headers, "connection", items, token);
    assert !Keeps(h.name, tokens, upgrade);
    KeptIsShorter(headers, tokens, upgrade);
  }

  lemma OptionBytes(tokens: set<bytes>, upgrade: bool)
    ensures LineBytes(ConnectionHeader(tokens, upgrade)) == if upgrade then 21 else if "close" in tokens then 19 else 0
  {
    var option := ConnectionHeader(tokens, upgrade);
    if option != [] {
      assert option[..0] == [];
      assert LineBytes(option) == |option[0].line| + 2;
    }
  }
}
