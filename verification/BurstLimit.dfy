/**
 * With which keys the relay can stop because a burst of rewritten requests exceeds its allowance: exactly
 * those of more than SAFE_KEY_BYTES bytes.
 */
module BurstLimit {
  import opened Bytes
  import opened RequestHead
  import opened StreamRewriter
  import opened MessageGrammar
  import opened BurstBound
  import opened Relay

  /** A run of the relay, from a fresh rewriter and any bytes already owed, that the burst limit stops. */
  ghost predicate Overruns(cr: Config, cl: Config, turns: seq<Turn>) {
    && cr.rewrites && !cl.rewrites && cr.maxBuffer == cl.maxBuffer && cr.start == INITIAL
    && cr.maxBuffer > 0 && Sound(cr, Begin(cr)) && Sound(cl, Begin(cl))
    && ServeAll(cr, cl, Link(Begin(cr), Begin(cl)), turns).exit == Aborted(BurstExceedsBuffer)
  }

  ghost predicate CanOverrun(key: bytes, maxBuffer: nat) {
    exists cr, cl, turns :: Overruns(cr, cl, turns) && cr.key == key && cr.maxBuffer == maxBuffer
  }

  // ---------------------------------------------------------------- bytes trickling in

  const NOTHING: Ready := Ready(false, NothingYet, false, Blocked)

  /** The client's socket is readable and holds these bytes; nothing else happens. */
  function Arrival(data: bytes): Turn {
    Events(Ready(true, Arrived(data), false, Blocked), NOTHING, true)
  }

  function Trickle(data: bytes): seq<Turn> {
    if data == [] then [] else [Arrival(data[..1])] + Trickle(data[1..])
  }

  /** Both directions are open; the rewriter waits for the end of a head and the buffer is as it was. */
  predicate Waiting(cr: Config, link: Link, pending: bytes) {
    && link.toRight.pipe == Pipe(true, true, cr.initial)
    && link.toRight.parser == At(pending, Head, false)
    && link.toLeft.pipe == Pipe(true, true, [])
  }

  ghost predicate Primed(cr: Config, cl: Config, link: Link) {
    && Sound(cr, link.toRight) && Sound(cl, link.toLeft)
    && cr.rewrites && !cl.rewrites && cr.maxBuffer == cl.maxBuffer && 0 < |cr.initial| < cr.maxBuffer
  }

  /** A turn in which bytes arrive hands them to the rewriter. */
  lemma ArrivalAccepts(cr: Config, cl: Config, link: Link, pending: bytes, data: bytes)
    requires Primed(cr, cl, link) && Waiting(cr, link, pending)
    requires 0 < |data| <= TRANSFORM_READ_SIZE && |cr.initial| + |data| <= cr.maxBuffer
    ensures var asked := link.toRight.(asked := link.toRight.asked + [ReadSize(cr, link.toRight.pipe)]);
            var read := Accept(cr, asked, data);
            ServeTurn(cr, cl, link, Arrival(data))
            == Served(if read.Stopped? then Aborted(read.error) else StillServing, Link(read.flow, link.toLeft))
  {
    var f, b := link.toRight, link.toLeft;
    var turn := Arrival(data);
    assert Half(f) == f && Half(b) == b;
    assert Clipped(Arrived(data), ReadSize(cr, f.pipe)) == data;
    AllRegistered(cr, cl, link, turn);
  }

  /** While the head is unfinished nothing comes out. */
  lemma PartOfAHead(key: bytes, pending: bytes, data: bytes)
    requires Find(pending + data, CRLFCRLF) < 0 && |pending + data| <= MAX_HEADER_BYTES
    ensures FeedOnce(key, At(pending, Head, false), data) == Done(At(pending + data, Head, false), [])
  {
  }

  lemma OneArrival(cr: Config, cl: Config, link: Link, pending: bytes, data: bytes) returns (next: Link)
    requires Primed(cr, cl, link) && Waiting(cr, link, pending)
    requires 0 < |data| <= TRANSFORM_READ_SIZE && |cr.initial| + |data| <= cr.maxBuffer
    requires Find(pending + data, CRLFCRLF) < 0 && |pending + data| <= MAX_HEADER_BYTES
    ensures Primed(cr, cl, next) && Waiting(cr, next, pending + data)
    ensures ServeTurn(cr, cl, link, Arrival(data)) == Served(StillServing, next)
  {
    ArrivalAccepts(cr, cl, link, pending, data);
    PartOfAHead(cr.key, pending, data);
    next := ServeTurn(cr, cl, link, Arrival(data)).link;
    assert cr.initial + [] == cr.initial;
  }

  lemma ServeFirst(cr: Config, cl: Config, link: Link, next: Link, turn: Turn, later: seq<Turn>)
    requires Primed(cr, cl, link) && Primed(cr, cl, next)
    requires ServeTurn(cr, cl, link, turn) == Served(StillServing, next)
    ensures ServeAll(cr, cl, link, [turn] + later) == ServeAll(cr, cl, next, later)
  {
    assert ([turn] + later)[0] == turn && ([turn] + later)[1..] == later;
  }

  lemma {:induction false} TrickledIn(cr: Config, cl: Config, link: Link, pending: bytes, data: bytes, rest: seq<Turn>)
    returns (next: Link)
    requires Primed(cr, cl, link) && Waiting(cr, link, pending)
    requires Find(pending + data, CRLFCRLF) < 0 && |pending + data| <= MAX_HEADER_BYTES
    ensures Primed(cr, cl, next) && Waiting(cr, next, pending + data)
    ensures ServeAll(cr, cl, link, Trickle(data) + rest) == ServeAll(cr, cl, next, rest)
    decreases |data|
  {
    if data == [] {
      next := link;
      assert pending + [] == pending && [] + rest == rest;
    } else {
      var first, later := data[..1], data[1..];
      UnfinishedPart(pending, first, later, data);
      var one := OneArrival(cr, cl, link, pending, first);
      next := TrickledIn(cr, cl, one, pending + first, later, rest);
      ServeFirst(cr, cl, link, one, Arrival(first), Trickle(later) + rest);
      TrickleStep(data, rest);
    }
  }

  lemma TrickleStep(data: bytes, rest: seq<Turn>)
    requires data != []
    ensures Trickle(data) + rest == [Arrival(data[..1])] + (Trickle(data[1..]) + rest)
  {
  }

  lemma UnfinishedPart(pending: bytes, first: bytes, later: bytes, data: bytes)
    requires data == first + later && Find(pending + data, CRLFCRLF) < 0
    ensures Find(pending + first, CRLFCRLF) < 0 && (pending + first) + later == pending + data
  {
    assert pending + data == (pending + first) + later;
    FindExtend(pending + first, later, CRLFCRLF);
  }

  // ---------------------------------------------------------------- the overrun

  /** A longest head, and sixty-three of the shortest. */
  lemma Requests(key: bytes) returns (long: Message, ms: seq<Message>)
    requires ValidKey(key)
    ensures GoodStream(key, ms)
    ensures |long.head| == MAX_HEADER_BYTES && Find(long.head, CRLFCRLF) == MAX_HEADER_BYTES - 4
    ensures |Wire(ms)| == MAX_HEADER_BYTES + 1008 && long.head <= Wire(ms)
    ensures |Forwarded(key, ms)| == 68080 + 64 * |key|
  {
    var word: bytes := seq(MAX_HEADER_BYTES - 15, i => 'B');
    long := PlainRequest(key, word);
    var short := PlainRequest(key, ['B']);
    var many := Repeat(short, 63);
    NotLastCanPrecede(key, short);
    RepeatedAreGood(key, short, 63);
    RepeatedSizes(key, short, 16, 40 + |key|, 63);
    NotLastCanPrecede(key, long);
    OneMore(key, long, many);
    ms := [long] + many;
    HeadComesFirst(long, many);
  }

  lemma HeadComesFirst(m: Message, ms: seq<Message>)
    ensures m.head <= Wire([m] + ms)
  {
    assert ([m] + ms)[0] == m;
  }

  lemma PlainRequest(key: bytes, word: bytes) returns (m: Message)
    requires ValidKey(key) && 0 < |word| <= MAX_HEADER_BYTES - 15
    requires forall c :: c in word ==> c == 'B'
    ensures GoodMessage(key, m) && m.body == Empty && !IsLast(Rewrite(m.head, key).value)
    ensures |m.head| == |word| + 15 && |Rewrite(m.head, key).value.rewritten| == |m.head| + 24 + |key|
  {
    var line := RequestLine(word);
    RequestLineIsValid(word);
    BareRequest(key, line);
    m := Message(Render(line, []), Empty);
  }

  /** What the last read completes: the pending head and all the others, in one burst. */
  lemma BurstOut(key: bytes, ms: seq<Message>, pending: bytes, data: bytes)
    requires ValidKey(key) && GoodStream(key, ms) && pending + data == Wire(ms)
    ensures FeedOnce(key, At(pending, Head, false), data).Done?
    ensures FeedOnce(key, At(pending, Head, false), data).out == Forwarded(key, ms)
  {
    GoodStreamIsForwarded(key, ms);
  }

  /** A key beyond the limit: 65535 bytes of a head trickle in, then the read that ends it brings 63 requests more. */
  lemma LongKeyOverruns(key: bytes, maxBuffer: nat)
    requires ValidKey(key) && |key| > SAFE_KEY_BYTES && maxBuffer >= BUFFER_SIZE
    ensures CanOverrun(key, maxBuffer)
  {
    var ms, pending, data := CutBeforeTheEnd(key);
    var cr, cl := Full(key, maxBuffer);
    RunOverruns(cr, cl, ms, pending, data);
  }

  /** The requests, cut one byte before the end of the first head. */
  lemma CutBeforeTheEnd(key: bytes) returns (ms: seq<Message>, pending: bytes, data: bytes)
    requires ValidKey(key)
    ensures GoodStream(key, ms) && pending + data == Wire(ms) && |Forwarded(key, ms)| == 68080 + 64 * |key|
    ensures Find([] + pending, CRLFCRLF) < 0 && [] + pending == pending && |pending| <= MAX_HEADER_BYTES
    ensures |data| == 1009
  {
    var long;
    long, ms := Requests(key);
    pending, data := long.head[..|long.head| - 1], Wire(ms)[|long.head| - 1..];
    UnfinishedHead(long.head, pending);
    CutInPrefix(long.head, Wire(ms), |long.head| - 1);
  }

  lemma CutInPrefix(head: bytes, all: bytes, n: nat)
    requires head <= all && n <= |head|
    ensures head[..n] + all[n..] == all
  {
  }

  /** A relay with room for 1009 bytes in its buffer. */
  lemma Full(key: bytes, maxBuffer: nat) returns (cr: Config, cl: Config)
    requires maxBuffer >= BUFFER_SIZE
    ensures Primed(cr, cl, Link(Begin(cr), Begin(cl))) && cr.start == INITIAL && cl.initial == []
    ensures cr.key == key && cr.maxBuffer == maxBuffer && |cr.initial| == maxBuffer - 1009
  {
    var owed: bytes := seq(maxBuffer - 1009, i => 'B');
    cr := Config(maxBuffer, TRANSFORM_BURST_BYTES, owed, true, key, INITIAL);
    cl := Config(maxBuffer, 0, [], false, [], INITIAL);
    BeginFaithful(cr);
    BeginFaithful(cl);
  }

  lemma RunOverruns(cr: Config, cl: Config, ms: seq<Message>, pending: bytes, data: bytes)
    requires Primed(cr, cl, Link(Begin(cr), Begin(cl))) && cr.start == INITIAL && cl.initial == []
    requires ValidKey(cr.key) && |cr.key| > SAFE_KEY_BYTES && |cr.initial| == cr.maxBuffer - 1009
    requires GoodStream(cr.key, ms) && pending + data == Wire(ms) && |Forwarded(cr.key, ms)| == 68080 + 64 * |cr.key|
    requires Find([] + pending, CRLFCRLF) < 0 && [] + pending == pending && |pending| <= MAX_HEADER_BYTES
    requires |data| == 1009
    ensures Overruns(cr, cl, Trickle(pending) + [Arrival(data)])
  {
    var start := Link(Begin(cr), Begin(cl));
    var next := TrickledIn(cr, cl, start, [], pending, [Arrival(data)]);
    LastRead(cr, cl, next, ms, pending, data);
    assert [Arrival(data)][0] == Arrival(data);
  }

  lemma LastRead(cr: Config, cl: Config, link: Link, ms: seq<Message>, pending: bytes, data: bytes)
    requires Primed(cr, cl, link) && Waiting(cr, link, pending) && ValidKey(cr.key)
    requires |cr.key| > SAFE_KEY_BYTES && |cr.initial| == cr.maxBuffer - 1009 && |data| == 1009
    requires GoodStream(cr.key, ms) && pending + data == Wire(ms) && |Forwarded(cr.key, ms)| == 68080 + 64 * |cr.key|
    ensures ServeTurn(cr, cl, link, Arrival(data)).exit == Aborted(BurstExceedsBuffer)
  {
    ArrivalAccepts(cr, cl, link, pending, data);
    BurstOut(cr.key, ms, pending, data);
  }

  lemma UnfinishedHead(head: bytes, pending: bytes)
    requires |head| >= 4 && Find(head, CRLFCRLF) == |head| - 4 && pending == head[..|head| - 1]
    ensures Find([] + pending, CRLFCRLF) < 0 && [] + pending == pending
  {
    assert head == pending + head[|head| - 1..];
    FindExtend(pending, head[|head| - 1..], CRLFCRLF);
  }

  /**
   * The exact limit: some run of the relay ends in the burst error if and only if the key is longer than
   * SAFE_KEY_BYTES. The error is excluded from every sound state, not only from the start.
   */
  lemma BurstLimitIsExact(key: bytes, maxBuffer: nat)
    requires ValidKey(key) && maxBuffer >= BUFFER_SIZE
    ensures CanOverrun(key, maxBuffer) <==> |key| > SAFE_KEY_BYTES
  {
    if |key| > SAFE_KEY_BYTES {
      LongKeyOverruns(key, maxBuffer);
    }
  }
}
