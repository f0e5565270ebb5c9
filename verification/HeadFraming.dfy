/**
 * What a request head says, read off its fields: whether it is accepted, how its body is delimited (section 6.3 of
 * RFC 9112), and what its rewriting says in its turn.
 */
module HeadFraming {
  import opened Wrappers
  import opened Bytes
  import opened Numerals
  import opened LineGrammar
  import opened RequestHead
  import opened HeadLaws

  // ---------------------------------------------------------------- lists of items

  /** The item is one of the comma-separated pieces of some value, white space around it aside. */
  ghost predicate Listed(values: seq<bytes>, item: bytes) {
    exists v, i :: v in values && 0 <= i < |Split(v, ",")| && item == Strip(Split(v, ",")[i])
  }

  lemma {:induction false} ItemsAre(values: seq<bytes>, item: bytes)
    ensures item in Items(values) <==> Listed(values, item)
  {
    if values != [] {
      var most, last := values[..|values| - 1], values[|values| - 1];
      ItemsAre(most, item);
      assert last in values;
      assert forall v :: v in values <==> v in most || v == last;
      LastItems(last, item);
    }
  }

  lemma LastItems(last: bytes, item: bytes)
    ensures item in StripAll(Split(last, ","))
       <==> exists i :: 0 <= i < |Split(last, ",")| && item == Strip(Split(last, ",")[i])
  {
    var items := StripAll(Split(last, ","));
    if item in items {
      var i :| 0 <= i < |items| && items[i] == item;
    }
    if i :| 0 <= i < |Split(last, ",")| && item == Strip(Split(last, ",")[i]) {
      assert items[i] == item;
    }
  }

  /** Some Connection header lists the option, in any case. */
  ghost predicate Option(values: seq<bytes>, option: bytes) {
    exists item :: Listed(values, item) && Lower(item) == option
  }

  predicate AllTokens(items: seq<bytes>) {
    forall i :: 0 <= i < |items| ==> IsToken(Lower(items[i]))
  }

  lemma {:induction false} TokenSetIs(items: seq<bytes>, token: bytes)
    ensures TokenSet(items).Some? <==> AllTokens(items)
    ensures TokenSet(items).Some? ==>
              (token in TokenSet(items).value <==> exists item :: item in items && Lower(item) == token)
  {
    if items != [] {
      var most, last := items[..|items| - 1], items[|items| - 1];
      TokenSetIs(most, token);
      assert last in items;
      assert forall item :: item in items <==> item in most || item == last;
    }
  }

  lemma OptionsAre(values: seq<bytes>, option: bytes)
    requires TokenSet(Items(values)).Some?
    ensures option in TokenSet(Items(values)).value <==> Option(values, option)
  {
    TokenSetIs(Items(values), option);
    if item :| item in Items(values) && Lower(item) == option {
      ItemsAre(values, item);
    }
    if item :| Listed(values, item) && Lower(item) == option {
      ItemsAre(values, item);
    }
  }

  // ---------------------------------------------------------------- lengths and codings

  /** The item spells the length, in no more digits than are read. */
  ghost predicate SpellsLength(item: bytes, n: nat) {
    |item| <= MAX_INT_DIGITS && exists zeros :: item == Zeros(zeros) + Numeral(n, 10)
  }

  /** There are lengths, and all of them are this one. */
  ghost predicate SaysLength(values: seq<bytes>, n: nat) {
    && Items(values) != []
    && forall i :: 0 <= i < |Items(values)| ==> SpellsLength(Items(values)[i], n)
  }

  lemma SpellsIfReads(item: bytes, n: nat)
    ensures SpellsLength(item, n) <==> Readable(item) && DecimalValue(item) == n
  {
    if SpellsLength(item, n) {
      var zeros :| item == Zeros(zeros) + Numeral(n, 10);
      NumeralIsDecimal(n);
      LeadingZerosDecimal(zeros, Numeral(n, 10));
    }
    if Readable(item) {
      DecimalIs(item, n);
    }
  }

  lemma LengthOfIs(values: seq<bytes>, n: nat)
    ensures LengthOf(Items(values)) == Ok(None) <==> Items(values) == []
    ensures LengthOf(Items(values)) == Ok(Some(n)) <==> SaysLength(values, n)
  {
    var items := Items(values);
    EveryoneReadable(items);
    forall i | 0 <= i < |items|
      ensures SpellsLength(items[i], n) <==> Readable(items[i]) && DecimalValue(items[i]) == n
    {
      SpellsIfReads(items[i], n);
    }
  }

  lemma SomethingIsListed(values: seq<bytes>)
    ensures Items(values) == [] <==> values == []
  {
  }

  /** Chunked is the last coding, and no other is. */
  ghost predicate ChunkedOnce(values: seq<bytes>) {
    var items := Items(values);
    && items != [] && Lower(items[|items| - 1]) == "chunked"
    && forall i :: 0 <= i < |items| - 1 ==> Lower(items[i]) != "chunked"
  }

  lemma NoneOfThem(codings: seq<bytes>, coding: bytes)
    ensures multiset(codings)[coding] == 0 <==> forall i :: 0 <= i < |codings| ==> codings[i] != coding
  {
    if i :| 0 <= i < |codings| && codings[i] == coding {
      assert codings[i] in multiset(codings);
    }
    assert coding in multiset(codings) ==> coding in codings;
  }

  lemma LastOnly(codings: seq<bytes>, coding: bytes)
    requires codings != [] && codings[|codings| - 1] == coding
    ensures multiset(codings)[coding] == 1 <==> forall i :: 0 <= i < |codings| - 1 ==> codings[i] != coding
  {
    var most := codings[..|codings| - 1];
    assert codings == most + [coding];
    NoneOfThem(most, coding);
  }

  lemma ChunkedLastIs(values: seq<bytes>)
    ensures ChunkedLast(LowerAll(Items(values))) <==> ChunkedOnce(values)
  {
    var items := Items(values);
    var codings := LowerAll(items);
    assert forall i :: 0 <= i < |items| ==> codings[i] == Lower(items[i]);
    if codings != [] && codings[|codings| - 1] == "chunked" {
      LastOnly(codings, "chunked");
    }
  }

  // ---------------------------------------------------------------- the decision

  const FRAMING_NAMES: seq<bytes> := ["content-length", "transfer-encoding", "host", "trailer"]

  /** Nobody may have a header that frames the message dropped on the way. */
  ghost predicate NamesNoFraming(connection: seq<bytes>) {
    forall i :: 0 <= i < |FRAMING_NAMES| ==> !Option(connection, FRAMING_NAMES[i])
  }

  /** What is asked of the fields of a head. */
  ghost predicate Acceptable(f: Fields) {
    && AllTokens(Items(f.connection)) && NamesNoFraming(f.connection)
    && (f.length == [] || exists n :: SaysLength(f.length, n))
    && (f.transfer != [] ==> f.length == [] && ChunkedOnce(f.transfer))
  }

  ghost predicate Upgrades(f: Fields) {
    Option(f.connection, "upgrade") && f.upgrade != []
  }

  /** The connection is no longer HTTP after this head. */
  ghost predicate Tunnels(methodName: bytes, f: Fields) {
    Upper(methodName) == "CONNECT" || Upgrades(f)
  }

  /** How the plan frames the body, said by the fields. */
  ghost predicate FramedBy(methodName: bytes, f: Fields, p: Plan) {
    && (p.upgrade <==> Upgrades(f))
    && (p.body.RawBody? <==> Tunnels(methodName, f))
    && (p.body.ChunkedBody? <==> !Tunnels(methodName, f) && f.transfer != [])
    && (p.body.FixedBody? ==> p.length > 0 && SaysLength(f.length, p.length))
    && (p.body.NoBody? ==> f.transfer == [] && (f.length == [] || SaysLength(f.length, 0)))
    && (!p.body.FixedBody? ==> p.length == 0)
    && (p.closeAfter <==> Option(f.connection, "close") && !Tunnels(methodName, f))
    && (forall option :: option in p.tokens <==> Option(f.connection, option))
  }

  lemma NoFramingIs(connection: seq<bytes>)
    requires TokenSet(Items(connection)).Some?
    ensures TokenSet(Items(connection)).value * FRAMING_HEADERS == {} <==> NamesNoFraming(connection)
  {
    var tokens := TokenSet(Items(connection)).value;
    forall i | 0 <= i < |FRAMING_NAMES| ensures FRAMING_NAMES[i] in tokens <==> Option(connection, FRAMING_NAMES[i]) {
      OptionsAre(connection, FRAMING_NAMES[i]);
    }
    FramingListed(tokens);
  }

  lemma FramingListed(tokens: set<bytes>)
    ensures tokens * FRAMING_HEADERS == {} <==> forall i :: 0 <= i < |FRAMING_NAMES| ==> FRAMING_NAMES[i] !in tokens
  {
    forall i | 0 <= i < |FRAMING_NAMES| ensures FRAMING_NAMES[i] in FRAMING_HEADERS {
    }
    if t :| t in tokens * FRAMING_HEADERS {
      assert t == FRAMING_NAMES[0] || t == FRAMING_NAMES[1] || t == FRAMING_NAMES[2] || t == FRAMING_NAMES[3];
    }
    if i :| 0 <= i < |FRAMING_NAMES| && FRAMING_NAMES[i] in tokens {
      assert FRAMING_NAMES[i] in tokens * FRAMING_HEADERS;
    }
  }

  /** The body of an accepted head is framed as its fields say. */
  lemma DecisionIs(methodName: bytes, f: Fields)
    ensures Decide(methodName, f).Ok? <==> Acceptable(f)
  {
    TokenSetIs(Items(f.connection), []);
    SomethingIsListed(f.length);
    ChunkedLastIs(f.transfer);
    if TokenSet(Items(f.connection)).Some? {
      NoFramingIs(f.connection);
    }
    if n :| SaysLength(f.length, n) {
      LengthOfIs(f.length, n);
    }
    LengthOfIs(f.length, 0);
    if LengthOf(Items(f.length)).Ok? && LengthOf(Items(f.length)).value.Some? {
      LengthOfIs(f.length, LengthOf(Items(f.length)).value.value);
    }
  }

  lemma FramingIs(methodName: bytes, f: Fields, p: Plan)
    requires Decide(methodName, f) == Ok(p)
    ensures FramedBy(methodName, f, p)
  {
    OptionsOfPlan(methodName, f, p);
    LengthOfPlan(methodName, f, p);
  }

  lemma OptionsOfPlan(methodName: bytes, f: Fields, p: Plan)
    requires Decide(methodName, f) == Ok(p)
    ensures forall option :: option in p.tokens <==> Option(f.connection, option)
    ensures (p.upgrade <==> Upgrades(f)) && (p.body.RawBody? <==> Tunnels(methodName, f))
    ensures p.closeAfter <==> Option(f.connection, "close") && !Tunnels(methodName, f)
  {
    forall option ensures option in p.tokens <==> Option(f.connection, option) {
      OptionsAre(f.connection, option);
    }
  }

  lemma LengthOfPlan(methodName: bytes, f: Fields, p: Plan)
    requires Decide(methodName, f) == Ok(p)
    ensures p.body.ChunkedBody? <==> !p.body.RawBody? && f.transfer != []
    ensures p.body.FixedBody? ==> p.length > 0 && SaysLength(f.length, p.length)
    ensures p.body.NoBody? ==> f.transfer == [] && (f.length == [] || SaysLength(f.length, 0))
    ensures !p.body.FixedBody? ==> p.length == 0
  {
    SomethingIsListed(f.length);
    LengthOfIs(f.length, 0);
    var length := LengthOf(Items(f.length)).value;
    if length.Some? {
      LengthOfIs(f.length, length.value);
    }
  }

  // ---------------------------------------------------------------- refusals

  /** The first item that is no length is this one, and the error says why. */
  predicate FirstRefused(items: seq<bytes>, i: nat, e: HeadError)
    requires i < |items|
  {
    && (forall k :: 0 <= k < i ==> Readable(items[k]))
    && (e == InvalidContentLength ==> !AllDigits(items[i]))
    && (e == TooManyDigits ==> AllDigits(items[i]) && |items[i]| > MAX_INT_DIGITS)
    && e in {InvalidContentLength, TooManyDigits}
  }

  ghost predicate RefusedAt(items: seq<bytes>, e: HeadError) {
    exists i :: 0 <= i < |items| && FirstRefused(items, i, e)
  }

  lemma {:induction false} RefusalIs(items: seq<bytes>, e: HeadError)
    ensures Refusal(items) == Some(e) <==> RefusedAt(items, e)
  {
    if items != [] {
      var n := |items| - 1;
      var most := items[..n];
      RefusalIs(most, e);
      EveryoneReadable(most);
      if RefusedAt(most, e) {
        var i :| 0 <= i < n && FirstRefused(most, i, e);
        assert FirstRefused(items, i, e);
      }
      if RefusedAt(items, e) {
        var i :| 0 <= i < |items| && FirstRefused(items, i, e);
        if i < n {
          assert FirstRefused(most, i, e);
        }
      }
      if Refusal(most).None? && Refusal(items) == Some(e) {
        assert FirstRefused(items, n, e);
      }
      if Refusal(most).Some? {
        RefusalIs(most, Refusal(most).value);
      }
    }
  }

  /** Every length is readable, but they do not agree. */
  predicate Disagree(items: seq<bytes>) {
    && (forall i :: 0 <= i < |items| ==> Readable(items[i]))
    && exists i :: 0 <= i < |items| && DecimalValue(items[i]) != DecimalValue(items[0])
  }

  /** Why the fields are refused: the first of these that applies. */
  ghost predicate RefusedFor(f: Fields, e: HeadError) {
    var lengths := Items(f.length);
    match e
    case InvalidConnectionToken => !AllTokens(Items(f.connection))
    case ConnectionNamesFramingHeader => AllTokens(Items(f.connection)) && !NamesNoFraming(f.connection)
    case InvalidContentLength => Unhindered(f) && RefusedAt(lengths, e)
    case TooManyDigits => Unhindered(f) && RefusedAt(lengths, e)
    case ConflictingContentLength => Unhindered(f) && Disagree(lengths)
    case BothFramings => Unhindered(f) && f.transfer != [] && exists n :: SaysLength(f.length, n)
    case UnsupportedTransferEncoding =>
      Unhindered(f) && f.length == [] && f.transfer != [] && !ChunkedOnce(f.transfer)
    case _ => false
  }

  ghost predicate Unhindered(f: Fields) {
    AllTokens(Items(f.connection)) && NamesNoFraming(f.connection)
  }

  lemma LengthErrorIs(values: seq<bytes>, e: HeadError)
    ensures LengthOf(Items(values)) == Err(e)
       <==> RefusedAt(Items(values), e) || (e == ConflictingContentLength && Disagree(Items(values)))
  {
    EveryoneReadable(Items(values));
    RefusalIs(Items(values), e);
  }

  lemma ConnectionStep(f: Fields)
    ensures TokenSet(Items(f.connection)).Some? <==> AllTokens(Items(f.connection))
    ensures TokenSet(Items(f.connection)).Some? ==>
              (TokenSet(Items(f.connection)).value * FRAMING_HEADERS == {} <==> NamesNoFraming(f.connection))
  {
    TokenSetIs(Items(f.connection), []);
    if TokenSet(Items(f.connection)).Some? {
      NoFramingIs(f.connection);
    }
  }

  lemma LengthStep(f: Fields)
    ensures LengthOf(Items(f.length)) == Ok(None) <==> f.length == []
    ensures LengthOf(Items(f.length)).Ok? && LengthOf(Items(f.length)).value.Some?
       <==> exists n :: SaysLength(f.length, n)
  {
    SomethingIsListed(f.length);
    LengthOfIs(f.length, 0);
    if LengthOf(Items(f.length)).Ok? && LengthOf(Items(f.length)).value.Some? {
      LengthOfIs(f.length, LengthOf(Items(f.length)).value.value);
    }
    if n :| SaysLength(f.length, n) {
      LengthOfIs(f.length, n);
    }
  }

  lemma RefusedWhy(methodName: bytes, f: Fields, e: HeadError)
    requires Decide(methodName, f) == Err(e)
    ensures RefusedFor(f, e)
  {
    ConnectionStep(f);
    LengthStep(f);
    ChunkedLastIs(f.transfer);
    LengthErrorIs(f.length, e);
  }

  lemma RefusedOnce(f: Fields, d: HeadError, e: HeadError)
    requires RefusedFor(f, d) && RefusedFor(f, e)
    ensures d == e
  {
    LengthStep(f);
    LengthErrorIs(f.length, d);
    LengthErrorIs(f.length, e);
  }

  lemma RefusedIsUnacceptable(f: Fields, e: HeadError)
    requires RefusedFor(f, e)
    ensures !Acceptable(f)
  {
    LengthStep(f);
    LengthErrorIs(f.length, e);
  }

  /** Exactly which error the fields of a head give. */
  lemma RefusedForIs(methodName: bytes, f: Fields, e: HeadError)
    ensures Decide(methodName, f) == Err(e) <==> RefusedFor(f, e)
  {
    DecisionIs(methodName, f);
    if Decide(methodName, f).Err? {
      RefusedWhy(methodName, f, Decide(methodName, f).error);
    }
    if RefusedFor(f, e) {
      RefusedIsUnacceptable(f, e);
      RefusedOnce(f, Decide(methodName, f).error, e);
    }
  }

  // ---------------------------------------------------------------- whole heads

  /** The request line and the fields a head consists of. */
  ghost predicate Consists(head: bytes, requestLine: bytes, headers: seq<Header>) {
    && Reads(head, requestLine, headers)
    && (exists methodName, target, version :: IsRequestLine(requestLine, methodName, target, version))
    && forall h :: h in headers ==> exists name :: IsField(h.line, name, h.value) && h.name == Lower(name)
  }

  /** Exactly which heads are accepted: a request line and field lines, with acceptable fields. */
  lemma HeadIs(head: bytes, key: bytes)
    ensures Rewrite(head, key).Ok?
       <==> exists requestLine, headers :: Consists(head, requestLine, headers) && Acceptable(FieldsOf(headers))
  {
    if Rewrite(head, key).Ok? {
      var requestLine, headers, p := Decompose(head, key);
      DecisionIs(Split(requestLine, " ")[0], FieldsOf(headers));
      ConsistsOf(head, requestLine, headers);
    }
    if requestLine, headers :| Consists(head, requestLine, headers) && Acceptable(FieldsOf(headers)) {
      var methodName := Split(requestLine, " ")[0];
      DecisionIs(methodName, FieldsOf(headers));
      RewriteRendered(requestLine, headers, Decide(methodName, FieldsOf(headers)).value, key);
    }
  }

  lemma ConsistsOf(head: bytes, requestLine: bytes, headers: seq<Header>)
    requires Reads(head, requestLine, headers)
    ensures Consists(head, requestLine, headers)
  {
    var parts := Split(requestLine, " ");
    assert [' '] == " ";
    RequestLineReads(requestLine, parts);
    forall h | h in headers ensures exists name :: IsField(h.line, name, h.value) && h.name == Lower(name) {
      HeaderIs(h.line, h);
    }
  }

  // ---------------------------------------------------------------- what the rewriting says

  /** The first line of a head. */
  function FirstLineOf(head: bytes): bytes {
    if |head| < 4 then [] else Split(head[..|head| - 4], CRLF)[0]
  }

  lemma FirstLineOfRender(requestLine: bytes, headers: seq<Header>)
    requires requestLine != [] && Find(requestLine, CRLF) < 0 && WellFormed(headers)
    ensures FirstLineOf(Render(requestLine, headers)) == requestLine
  {
    RenderReadsBack(requestLine, headers);
  }

  /** The request line is passed on as it is. */
  lemma RequestLineStays(head: bytes, key: bytes)
    requires ValidKey(key) && Rewrite(head, key).Ok?
    ensures FirstLineOf(Rewrite(head, key).value.rewritten) == FirstLineOf(head)
  {
    var requestLine, headers, p := Decompose(head, key);
    NewHeadersWellFormed(headers, p.tokens, p.upgrade, key);
    FirstLineOfRender(requestLine, headers);
    FirstLineOfRender(requestLine, NewHeaders(headers, p.tokens, p.upgrade, key));
  }

  /** The lines of the headers of that name, in order. */
  function LinesNamed(headers: seq<Header>, name: bytes): seq<bytes> {
    if headers == [] then []
    else
      var last := headers[|headers| - 1];
      LinesNamed(headers[..|headers| - 1], name) + if last.name == name then [last.line] else []
  }

  lemma {:induction false} LinesNamedConcat(a: seq<Header>, b: seq<Header>, name: bytes)
    ensures LinesNamed(a + b, name) == LinesNamed(a, name) + LinesNamed(b, name)
    decreases |b|
  {
    if b == [] {
      assert a + b == a;
    } else {
      LinesNamedConcat(a, b[..|b| - 1], name);
      assert (a + b)[..|a + b| - 1] == a + b[..|b| - 1];
    }
  }

  lemma {:induction false} LinesNamedKept(headers: seq<Header>, tokens: set<bytes>, upgrade: bool, name: bytes)
    ensures LinesNamed(Kept(headers, tokens, upgrade), name)
         == if Keeps(name, tokens, upgrade) then LinesNamed(headers, name) else []
  {
    if headers != [] {
      var most, last := headers[..|headers| - 1], headers[|headers| - 1];
      var kept := Kept(most, tokens, upgrade);
      LinesNamedKept(most, tokens, upgrade, name);
      if Keeps(last.name, tokens, upgrade) {
        LinesNamedConcat(kept, [last], name);
        LineNamed(last, name);
      } else {
        assert kept + [] == kept;
      }
    }
  }

  lemma LineNamed(h: Header, name: bytes)
    ensures LinesNamed([h], name) == if h.name == name then [h.line] else []
  {
    assert [h][..0] == [];
  }

  const HOP_BY_HOP: seq<bytes> := ["keep-alive", "proxy-authorization", "proxy-connection", "te"]

  /** What a rewritten head has under a name, given what the head had. */
  ghost function LinesAfter(headers: seq<Header>, key: bytes, name: bytes): seq<bytes> {
    var f := FieldsOf(headers);
    if name == "authorization" then ["Authorization: Bearer " + key]
    else if name == "connection" then
      if Upgrades(f) then ["Connection: Upgrade"]
      else if Option(f.connection, "close") then ["Connection: close"]
      else []
    else if name == "upgrade" then if Upgrades(f) then LinesNamed(headers, name) else []
    else if name in HOP_BY_HOP || Option(f.connection, name) then []
    else LinesNamed(headers, name)
  }

  lemma KeepsIs(name: bytes, tokens: set<bytes>, upgrade: bool)
    ensures name == "authorization" || name == "connection" || name in HOP_BY_HOP ==> !Keeps(name, tokens, upgrade)
    ensures name == "upgrade" ==> (Keeps(name, tokens, upgrade) <==> upgrade)
    ensures name != "authorization" && name != "connection" && name != "upgrade" && name !in HOP_BY_HOP ==>
              (Keeps(name, tokens, upgrade) <==> name !in tokens)
  {
    RemovedAre(name);
  }

  lemma RemovedAre(name: bytes)
    ensures name in ALWAYS_REMOVED <==> name == "authorization" || name == "connection" || name in HOP_BY_HOP
  {
    assert name in HOP_BY_HOP <==> name == HOP_BY_HOP[0] || name == HOP_BY_HOP[1] || name == HOP_BY_HOP[2]
                                   || name == HOP_BY_HOP[3];
  }

  lemma NewLines(headers: seq<Header>, tokens: set<bytes>, upgrade: bool, key: bytes, name: bytes)
    ensures LinesNamed(NewHeaders(headers, tokens, upgrade, key), name)
         == (if Keeps(name, tokens, upgrade) then LinesNamed(headers, name) else [])
            + (if name == "authorization" then ["Authorization: Bearer " + key] else [])
            + LinesNamed(ConnectionHeader(tokens, upgrade), name)
  {
    var kept, auth := Kept(headers, tokens, upgrade), AuthorizationHeader(key);
    LinesNamedKept(headers, tokens, upgrade, name);
    LinesNamedConcat(kept, [auth], name);
    LinesNamedConcat(kept + [auth], ConnectionHeader(tokens, upgrade), name);
    LineNamed(auth, name);
  }

  lemma ConnectionLines(tokens: set<bytes>, upgrade: bool, name: bytes)
    ensures LinesNamed(ConnectionHeader(tokens, upgrade), name)
         == if name != "connection" then []
            else if upgrade then ["Connection: Upgrade"]
            else if "close" in tokens then ["Connection: close"]
            else []
  {
    var option := ConnectionHeader(tokens, upgrade);
    if option != [] {
      LineNamed(option[0], name);
    }
  }

  /**
   * What a rewritten head says, name by name: the local key and nothing else under Authorization, a connection
   * option of its own, no hop-by-hop header, an Upgrade header only for an upgrade, and the rest unchanged.
   */
  lemma RewrittenLinesAre(head: bytes, key: bytes, name: bytes)
    requires ValidKey(key) && Rewrite(head, key).Ok?
    ensures LinesNamed(HeadersIn(Rewrite(head, key).value.rewritten), name) == LinesAfter(HeadersIn(head), key, name)
  {
    var requestLine, headers, p := Decompose(head, key);
    HeadersOfRender(requestLine, headers);
    FramingIs(Split(requestLine, " ")[0], FieldsOf(headers), p);
    NewHeadersWellFormed(headers, p.tokens, p.upgrade, key);
    HeadersOfRender(requestLine, NewHeaders(headers, p.tokens, p.upgrade, key));
    NewLinesAre(Split(requestLine, " ")[0], headers, p, key, name);
  }

  lemma NewLinesAre(methodName: bytes, headers: seq<Header>, p: Plan, key: bytes, name: bytes)
    requires FramedBy(methodName, FieldsOf(headers), p)
    ensures LinesNamed(NewHeaders(headers, p.tokens, p.upgrade, key), name) == LinesAfter(headers, key, name)
  {
    NewLines(headers, p.tokens, p.upgrade, key, name);
    ConnectionLines(p.tokens, p.upgrade, name);
    KeepsIs(name, p.tokens, p.upgrade);
    if name == "authorization" {
      assert name != "connection";
    }
  }
}
