/**
 * The bidirectional relay. A connection is two independent directions, each reading one socket and writing the
 * other through a bounded buffer. What the sockets answer is up to the environment; ghost histories record it.
 */
module Relay {
  import opened Wrappers
  import opened Bytes
  import opened StreamRewriter
  import opened Fragmentation
  import opened BurstBound
  import opened MessageGrammar
  import opened StreamLaws

  const BUFFER_SIZE: nat := 65536

  // ---------------------------------------------------------------- one direction as a value

  /** One direction: whether its source may still be read, its target still written, and what is in between. */
  datatype Pipe = Pipe(readOpen: bool, writeOpen: bool, buffer: bytes)

  /** What a non-blocking `recv` answers; an error reads as the end of the stream. */
  datatype Received = Arrived(data: bytes) | NothingYet | Ended

  /** What a non-blocking `send` answers. */
  datatype Sent = Taken(count: nat) | Blocked | Broken

  /** `recv` returns at most what it was asked for; no bytes mean the end of the stream. */
  function Clipped(answer: Received, size: nat): bytes {
    if answer.Arrived? then answer.data[..Min(size, |answer.data|)] else []
  }

  /** The half-closes at the top of the loop: stop writing once drained, stop reading once unwritable. */
  function HalfClose(p: Pipe): Pipe {
    var drained := if !p.readOpen && p.buffer == [] && p.writeOpen then p.(writeOpen := false) else p;
    if !drained.writeOpen && drained.readOpen then drained.(readOpen := false) else drained
  }

  predicate WantsRead(p: Pipe, maxBuffer: nat) {
    p.readOpen && p.writeOpen && |p.buffer| < maxBuffer
  }

  predicate WantsWrite(p: Pipe) {
    p.writeOpen && p.buffer != []
  }

  predicate Delivered(p: Pipe) {
    !p.readOpen && p.buffer == []
  }

  /** The buffer after a `send`; a broken target throws the buffered bytes away. */
  function AfterSend(p: Pipe, sent: Sent): Pipe {
    match sent
    case Taken(n) => p.(buffer := p.buffer[Min(n, |p.buffer|)..])
    case Blocked => p
    case Broken => p.(writeOpen := false, buffer := [])
  }

  /** A target that has not failed is closed only when nothing more will come for it. */
  predicate Orderly(p: Pipe) {
    !p.writeOpen ==> Delivered(p)
  }

  // ---------------------------------------------------------------- histories

  /** What the bytes read so far turn into: themselves, or the rewriter's output. */
  function Transformed(rewrites: bool, key: bytes, start: State, chunks: seq<bytes>): bytes
    requires Valid(start)
  {
    if !rewrites then Concat(chunks)
    else
      var r := FeedAll(key, start, chunks);
      if r.Done? then r.out else []
  }

  lemma {:induction false} ConcatSnoc(chunks: seq<bytes>, d: bytes)
    ensures Concat(chunks + [d]) == Concat(chunks) + d
  {
    if chunks == [] {
      assert [d][1..] == [] && [] + [d] == [d];
      assert Concat([d]) == d + [] == d == [] + d;
    } else {
      ConcatSnoc(chunks[1..], d);
      assert (chunks + [d])[1..] == chunks[1..] + [d];
      assert chunks[0] + (Concat(chunks[1..]) + d) == chunks[0] + Concat(chunks[1..]) + d;
    }
  }

  lemma {:induction false} FeedAllSnoc(key: bytes, s: State, chunks: seq<bytes>, d: bytes)
    requires Valid(s) && FeedAll(key, s, chunks).Done?
    ensures FeedAll(key, s, chunks + [d])
         == Prepend(FeedAll(key, s, chunks).out, FeedOnce(key, FeedAll(key, s, chunks).state, d))
    decreases |chunks|
  {
    if chunks == [] {
      assert [] + [d] == [d] && [d][1..] == [];
      FeedOne(key, s, d);
      PrependNothing(FeedOnce(key, s, d));
    } else {
      var first := FeedOnce(key, s, chunks[0]);
      FeedAllSnoc(key, first.state, chunks[1..], d);
      assert (chunks + [d])[1..] == chunks[1..] + [d];
      var rest := FeedAll(key, first.state, chunks[1..]);
      PrependTwice(first.out, rest.out, FeedOnce(key, rest.state, d));
    }
  }

  lemma FeedOne(key: bytes, s: State, d: bytes)
    requires Valid(s)
    ensures FeedAll(key, s, [d]) == FeedOnce(key, s, d)
  {
    var r := FeedOnce(key, s, d);
    assert [d][1..] == [];
    if r.Done? {
      assert FeedAll(key, r.state, []) == Done(r.state, []);
      assert r.out + [] == r.out;
    }
  }

  // ---------------------------------------------------------------- one direction with its history

  datatype RelayError = Stream(cause: StreamError) | BurstExceedsBuffer

  /** What does not change while a direction runs; `slack` is by how much its buffer may exceed the limit. */
  datatype Config = Config(maxBuffer: nat, slack: nat, initial: bytes, rewrites: bool, key: bytes, start: State)

  /**
   * A direction and its history: the rewriter's parser, what each `recv` returned, what the target took,
   * whether a `send` broke, whether SHUT_WR was issued, and the sizes `recv` was asked for.
   */
  datatype Flow = Flow(pipe: Pipe, parser: State, chunks: seq<bytes>, sent: bytes, sendFailed: bool,
                       shutWrite: bool, asked: seq<nat>)

  /** A step that may end the relay with an error. */
  datatype Reception = Went(flow: Flow) | Stopped(flow: Flow, error: RelayError)

  function ReadSize(cfg: Config, p: Pipe): nat
    requires |p.buffer| <= cfg.maxBuffer
  {
    Min(if cfg.rewrites then TRANSFORM_READ_SIZE else BUFFER_SIZE, cfg.maxBuffer - |p.buffer|)
  }

  function Begin(cfg: Config): Flow {
    Flow(Pipe(true, true, cfg.initial), cfg.start, [], [], false, false, [])
  }

  function Half(f: Flow): Flow {
    f.(pipe := HalfClose(f.pipe), shutWrite := f.shutWrite || (Delivered(f.pipe) && f.pipe.writeOpen))
  }

  function Receive(cfg: Config, f: Flow, answer: Received): Reception
    requires Valid(f.parser) && |f.pipe.buffer| <= cfg.maxBuffer
  {
    var size := ReadSize(cfg, f.pipe);
    var g := f.(asked := f.asked + [size]);
    var data := Clipped(answer, size);
    if answer == NothingYet then Went(g)
    else if data == [] then End(cfg, g)
    else Accept(cfg, g, data)
  }

  /** The source has ended; the rewriter may object. */
  function End(cfg: Config, f: Flow): Reception {
    var ended := f.(pipe := f.pipe.(readOpen := false));
    if cfg.rewrites && !Finishes(f.parser) then Stopped(ended, Stream(ClosedDuringRequest)) else Went(ended)
  }

  /** How a method that has come so far reports that. */
  function Reported(error: Option<RelayError>, f: Flow): Reception {
    if error.Some? then Stopped(f, error.value) else Went(f)
  }

  /** Bytes arrived: transform them and buffer the result. */
  function Accept(cfg: Config, f: Flow, data: bytes): Reception
    requires Valid(f.parser)
  {
    if !cfg.rewrites then Went(f.(pipe := f.pipe.(buffer := f.pipe.buffer + data), chunks := f.chunks + [data]))
    else
      match FeedOnce(cfg.key, f.parser, data)
      case Failed(left, error) => Stopped(f.(parser := left), Stream(error))
      case Done(s, out) =>
        if |f.pipe.buffer| + |out| > cfg.maxBuffer + TRANSFORM_BURST_BYTES then
          Stopped(f.(parser := s), BurstExceedsBuffer)
        else
          Went(f.(pipe := f.pipe.(buffer := f.pipe.buffer + out), parser := s, chunks := f.chunks + [data]))
  }

  function Push(f: Flow, answer: Sent): Flow {
    f.(pipe := AfterSend(f.pipe, answer),
       sent := f.sent + if answer.Taken? then f.pipe.buffer[..Min(answer.count, |f.pipe.buffer|)] else [],
       sendFailed := f.sendFailed || answer == Broken)
  }

  // ---------------------------------------------------------------- what every step keeps

  /** Everything a direction has to deliver so far. */
  function Owed(cfg: Config, f: Flow): bytes
    requires Valid(cfg.start)
  {
    cfg.initial + Transformed(cfg.rewrites, cfg.key, cfg.start, f.chunks)
  }

  /** The rewriter is where the bytes read so far have brought it, and it agreed to any end of the stream. */
  predicate InStep(cfg: Config, f: Flow) {
    && Valid(cfg.start) && Settled(cfg.key, cfg.start)
    && Valid(f.parser)
    && (cfg.rewrites ==>
          && cfg.slack == TRANSFORM_BURST_BYTES
          && FeedAll(cfg.key, cfg.start, f.chunks).Done?
          && FeedAll(cfg.key, cfg.start, f.chunks).state == f.parser
          && Settled(cfg.key, f.parser)
          && (!f.pipe.readOpen && !f.sendFailed ==> Finishes(f.parser)))
  }

  /** First in, first out: what was delivered, then what is buffered, is what is owed. */
  predicate Faithful(cfg: Config, f: Flow) {
    && Valid(cfg.start)
    && f.sent <= Owed(cfg, f)
    && (!f.sendFailed ==> Owed(cfg, f) == f.sent + f.pipe.buffer && Orderly(f.pipe))
    && (f.sendFailed ==> !f.pipe.writeOpen)
    && (!f.pipe.writeOpen ==> f.sendFailed || f.shutWrite)
    && (f.shutWrite ==> f.sent == Owed(cfg, f) && !f.pipe.readOpen)
    && |f.pipe.buffer| <= cfg.maxBuffer + cfg.slack
    && (forall a :: a in f.asked ==> 1 <= a <= BUFFER_SIZE)
  }

  predicate GoodConfig(cfg: Config) {
    && Valid(cfg.start) && Settled(cfg.key, cfg.start)
    && (cfg.rewrites ==> cfg.slack == TRANSFORM_BURST_BYTES)
    && |cfg.initial| <= cfg.maxBuffer + cfg.slack
  }

  lemma BeginFaithful(cfg: Config)
    requires GoodConfig(cfg)
    ensures InStep(cfg, Begin(cfg)) && Faithful(cfg, Begin(cfg))
  {
    assert Transformed(cfg.rewrites, cfg.key, cfg.start, []) == [];
    assert cfg.initial + [] == cfg.initial == [] + cfg.initial;
  }

  lemma HalfFaithful(cfg: Config, f: Flow)
    requires Faithful(cfg, f)
    ensures Faithful(cfg, Half(f)) && HalfClosed(Half(f)) && (InStep(cfg, f) ==> InStep(cfg, Half(f)))
  {
    assert f.sent + [] == f.sent;
  }

  lemma PushFaithful(cfg: Config, f: Flow, answer: Sent)
    requires Faithful(cfg, f) && f.pipe.writeOpen
    ensures Faithful(cfg, Push(f, answer)) && (InStep(cfg, f) ==> InStep(cfg, Push(f, answer)))
    ensures |Push(f, answer).pipe.buffer| <= |f.pipe.buffer|
  {
    if answer.Taken? {
      var n := Min(answer.count, |f.pipe.buffer|);
      assert f.sent + f.pipe.buffer == (f.sent + f.pipe.buffer[..n]) + f.pipe.buffer[n..];
    } else {
      assert f.sent + [] == f.sent;
    }
  }

  lemma ReceiveFaithful(cfg: Config, f: Flow, answer: Received)
    requires InStep(cfg, f) && Faithful(cfg, f) && f.pipe.readOpen && |f.pipe.buffer| < cfg.maxBuffer
    ensures var r := Receive(cfg, f, answer);
            && Faithful(cfg, r.flow)
            && (r.Went? ==> InStep(cfg, r.flow))
            && (r == Stopped(r.flow, BurstExceedsBuffer) ==> cfg.rewrites && |cfg.key| > SAFE_KEY_BYTES)
  {
    var size := ReadSize(cfg, f.pipe);
    var g := f.(asked := f.asked + [size]);
    assert forall a :: a in g.asked ==> a in f.asked || a == size;
    assert Owed(cfg, g) == Owed(cfg, f);
    var data := Clipped(answer, size);
    if answer != NothingYet && data != [] {
      AcceptFaithful(cfg, g, data);
    }
  }

  lemma AcceptFaithful(cfg: Config, f: Flow, data: bytes)
    requires InStep(cfg, f) && Faithful(cfg, f) && f.pipe.readOpen
    requires 0 < |data| && |f.pipe.buffer| + |data| <= cfg.maxBuffer
    requires cfg.rewrites ==> |data| <= TRANSFORM_READ_SIZE
    ensures var r := Accept(cfg, f, data);
            && Faithful(cfg, r.flow)
            && (r.Went? ==> InStep(cfg, r.flow))
            && (r == Stopped(r.flow, BurstExceedsBuffer) ==> cfg.rewrites && |cfg.key| > SAFE_KEY_BYTES)
  {
    if cfg.rewrites {
      RewriteFaithful(cfg, f, data);
    } else {
      ConcatSnoc(f.chunks, data);
      Extend(cfg.initial, Concat(f.chunks), data, f.sent, f.pipe.buffer);
    }
  }

  lemma RewriteFaithful(cfg: Config, f: Flow, data: bytes)
    requires InStep(cfg, f) && Faithful(cfg, f) && f.pipe.readOpen && cfg.rewrites
    requires 0 < |data| <= TRANSFORM_READ_SIZE && |f.pipe.buffer| + |data| <= cfg.maxBuffer
    ensures var r := Accept(cfg, f, data);
            && Faithful(cfg, r.flow)
            && (r.Went? ==> InStep(cfg, r.flow))
            && (r == Stopped(r.flow, BurstExceedsBuffer) ==> |cfg.key| > SAFE_KEY_BYTES)
  {
    var before := FeedAll(cfg.key, cfg.start, f.chunks);
    FeedAllSnoc(cfg.key, cfg.start, f.chunks, data);
    var fed := FeedOnce(cfg.key, f.parser, data);
    if fed.Done? {
      BurstBounded(cfg.key, f.parser, data);
      RunSettles(cfg.key, With(f.parser, data));
      Extend(cfg.initial, before.out, fed.out, f.sent, f.pipe.buffer);
    }
  }

  lemma Extend(initial: bytes, before: bytes, data: bytes, sent: bytes, buffer: bytes)
    ensures initial + (before + data) == (initial + before) + data
    ensures initial + before == sent + buffer ==> initial + (before + data) == sent + (buffer + data)
    ensures sent <= initial + before ==> sent <= initial + (before + data)
  {
  }

  // ---------------------------------------------------------------- the loop

  /** What `select` may report for one socket; what it is not registered for is ignored. */
  datatype Ready = Ready(read: bool, received: Received, write: bool, sent: Sent)

  /** One answer of the environment: an idle timeout or empty select, or events in some order. */
  datatype Turn = Idle | Events(left: Ready, right: Ready, leftFirst: bool)

  datatype Exit =
    | BadLimit
    | InitialTooLong
    | AllDelivered
    | NothingRegistered
    | NoEvents
    | Aborted(cause: RelayError)
    | StillServing

  /** Both directions: towards the right socket (from the left one) and back. */
  datatype Link = Link(toRight: Flow, toLeft: Flow)

  datatype Served = Served(exit: Exit, link: Link)

  predicate Sound(cfg: Config, f: Flow) {
    InStep(cfg, f) && Faithful(cfg, f)
  }

  datatype Handled = Handled(error: Option<RelayError>, source: Flow, target: Flow)

  predicate CanRead(cfg: Config, f: Flow) { f.pipe.readOpen && |f.pipe.buffer| < cfg.maxBuffer }

  /** The key is too long for the burst limit. */
  predicate OverLong(cfg: Config) {
    cfg.rewrites && |cfg.key| > SAFE_KEY_BYTES
  }

  /** The events of one socket: reading feeds one direction, writing drains the other. */
  function HandleOne(cs: Config, ct: Config, source: Flow, target: Flow, ready: Ready): (r: Handled)
    requires Sound(cs, source) && Sound(ct, target)
    requires (ready.read ==> CanRead(cs, source)) && (ready.write ==> target.pipe.writeOpen)
    ensures Faithful(cs, r.source) && Faithful(ct, r.target) && Sound(ct, r.target)
    ensures r.error.None? ==> Sound(cs, r.source)
    ensures r.error == Some(BurstExceedsBuffer) ==> OverLong(cs)
    ensures r.source.pipe.writeOpen == source.pipe.writeOpen && r.target.pipe.readOpen == target.pipe.readOpen
    ensures |r.target.pipe.buffer| <= |target.pipe.buffer|
  {
    if ready.read then ReceiveFaithful(cs, source, ready.received);
      var read := Receive(cs, source, ready.received);
      if read.Stopped? then Handled(Some(read.error), read.flow, target)
      else Handled(None, read.flow, Drain(ct, target, ready))
    else Handled(None, source, Drain(ct, target, ready))
  }

  function Drain(cfg: Config, f: Flow, ready: Ready): (r: Flow)
    requires Sound(cfg, f) && (ready.write ==> f.pipe.writeOpen)
    ensures Sound(cfg, r) && |r.pipe.buffer| <= |f.pipe.buffer| && r.pipe.readOpen == f.pipe.readOpen
  {
    if ready.write then PushFaithful(cfg, f, ready.sent); Push(f, ready.sent) else f
  }

  /** What a socket's events come to that is registered for these. */
  function Registered(ready: Ready, read: bool, write: bool): Ready {
    ready.(read := ready.read && read, write := ready.write && write)
  }

  /** Nothing is left to close: a delivered direction is shut, and one that lost its target is not read. */
  predicate HalfClosed(f: Flow) {
    (Delivered(f.pipe) ==> !f.pipe.writeOpen) && (f.pipe.readOpen ==> f.pipe.writeOpen)
  }

  /** One pass through the loop. */
  function ServeTurn(cr: Config, cl: Config, link: Link, turn: Turn): (r: Served)
    requires Sound(cr, link.toRight) && Sound(cl, link.toLeft)
    requires cr.maxBuffer == cl.maxBuffer > 0 && !cl.rewrites
    ensures Ends(cr, cl, r)
  {
    HalfFaithful(cr, link.toRight);
    HalfFaithful(cl, link.toLeft);
    SelectTurn(cr, cl, Half(link.toRight), Half(link.toLeft), turn)
  }

  /** The rest of the pass, after the half-closes. */
  function SelectTurn(cr: Config, cl: Config, f: Flow, b: Flow, turn: Turn): (r: Served)
    requires Sound(cr, f) && Sound(cl, b) && HalfClosed(f) && HalfClosed(b)
    requires cr.maxBuffer == cl.maxBuffer > 0 && !cl.rewrites
    ensures Ends(cr, cl, r)
  {
    var max := cr.maxBuffer;
    if Delivered(f.pipe) && Delivered(b.pipe) then Served(AllDelivered, Link(f, b))
    else if !WantsRead(f.pipe, max) && !WantsWrite(f.pipe) && !WantsRead(b.pipe, max) && !WantsWrite(b.pipe) then
      Served(NothingRegistered, Link(f, b))
    else if turn == Idle then Served(NoEvents, Link(f, b))
    else
      var left := Registered(turn.left, WantsRead(f.pipe, max), WantsWrite(b.pipe));
      var right := Registered(turn.right, WantsRead(b.pipe, max), WantsWrite(f.pipe));
      if !left.read && !left.write && !right.read && !right.write then Served(NoEvents, Link(f, b))
      else HandleBoth(cr, cl, f, b, left, right, turn.leftFirst)
  }

  function HandleBoth(cr: Config, cl: Config, f: Flow, b: Flow, left: Ready, right: Ready, leftFirst: bool): (r: Served)
    requires Sound(cr, f) && Sound(cl, b) && !cl.rewrites
    requires (left.read ==> CanRead(cr, f)) && (left.write ==> b.pipe.writeOpen)
    requires (right.read ==> CanRead(cl, b)) && (right.write ==> f.pipe.writeOpen)
    ensures r.exit.StillServing? || r.exit.Aborted?
    ensures Ends(cr, cl, r)
  {
    var h := if leftFirst then HandleInTurn(cr, cl, f, b, left, right)
             else
               var swapped := HandleInTurn(cl, cr, b, f, right, left);
               Handled(swapped.error, swapped.target, swapped.source);
    HandledEnds(cr, cl, h);
    Served(if h.error.Some? then Aborted(h.error.value) else StillServing, Link(h.source, h.target))
  }

  lemma HandledEnds(cr: Config, cl: Config, h: Handled)
    requires Faithful(cr, h.source) && Faithful(cl, h.target)
    requires h.error.None? ==> Sound(cr, h.source) && Sound(cl, h.target)
    requires h.error == Some(BurstExceedsBuffer) ==> OverLong(cr)
    ensures Ends(cr, cl, Served(if h.error.Some? then Aborted(h.error.value) else StillServing,
                                Link(h.source, h.target)))
  {
  }

  /** The events of a direction's source, then, if those went well, those of its target. */
  function HandleInTurn(cs: Config, ct: Config, source: Flow, target: Flow, first: Ready, second: Ready): (r: Handled)
    requires Sound(cs, source) && Sound(ct, target)
    requires (first.read ==> CanRead(cs, source)) && (first.write ==> target.pipe.writeOpen)
    requires (second.read ==> CanRead(ct, target)) && (second.write ==> source.pipe.writeOpen)
    ensures Faithful(cs, r.source) && Faithful(ct, r.target)
    ensures r.error.None? ==> Sound(cs, r.source) && Sound(ct, r.target)
    ensures r.error == Some(BurstExceedsBuffer) ==> OverLong(cs) || OverLong(ct)
  {
    var one := HandleOne(cs, ct, source, target, first);
    if one.error.Some? then one
    else
      var two := HandleOne(ct, cs, one.target, one.source, second);
      Handled(two.error, two.target, two.source)
  }

  /**
   * What holds whenever the relay stops or pauses. Both directions are first-in-first-out and bounded. It gives
   * up with nothing registered only after a failed `send`; when it reports both directions done, each whose
   * target did not fail has delivered everything it owed and has passed the half-close on; and the burst limit
   * is exceeded only with an over-long key.
   */
  predicate Ends(cr: Config, cl: Config, served: Served) {
    var f, b := served.link.toRight, served.link.toLeft;
    && served.exit !in {BadLimit, InitialTooLong}
    && Faithful(cr, f) && Faithful(cl, b)
    && (served.exit == StillServing ==> Sound(cr, f) && Sound(cl, b))
    && (served.exit == NothingRegistered ==> f.sendFailed || b.sendFailed)
    && (served.exit == AllDelivered ==>
          && Sound(cr, f) && Sound(cl, b) && Delivered(f.pipe) && Delivered(b.pipe)
          && (!f.sendFailed ==> f.sent == Owed(cr, f) && f.shutWrite)
          && (!b.sendFailed ==> b.sent == Owed(cl, b) && b.shutWrite))
    && (served.exit == Aborted(BurstExceedsBuffer) ==> OverLong(cr))
  }

  /** The loop, for as long as the environment answers. */
  function ServeAll(cr: Config, cl: Config, link: Link, turns: seq<Turn>): (r: Served)
    requires Sound(cr, link.toRight) && Sound(cl, link.toLeft)
    requires cr.maxBuffer == cl.maxBuffer > 0 && !cl.rewrites
    ensures Ends(cr, cl, r)
    decreases |turns|
  {
    if turns == [] then Served(StillServing, link)
    else
      var one := ServeTurn(cr, cl, link, turns[0]);
      if one.exit == StillServing then ServeAll(cr, cl, one.link, turns[1..]) else one
  }

  // ---------------------------------------------------------------- end to end

  /**
   * The adapter from end to end. It feeds the first bytes of the client to a fresh rewriter and starts the relay
   * with the output. When the relay reports everything delivered and the upstream never broke, the client has
   * sent a sequence of well-formed requests, and the upstream has received exactly those requests rewritten.
   */
  lemma UpstreamReceivesTheRequests(key: bytes, first: bytes, cr: Config, cl: Config, turns: seq<Turn>)
    returns (messages: seq<Message>)
    requires FeedOnce(key, INITIAL, first).Done?
    requires cr.rewrites && cr.key == key && cr.start == FeedOnce(key, INITIAL, first).state
    requires cr.initial == FeedOnce(key, INITIAL, first).out
    requires cr.maxBuffer == cl.maxBuffer > 0 && !cl.rewrites
    requires Sound(cr, Begin(cr)) && Sound(cl, Begin(cl))
    requires ServeAll(cr, cl, Link(Begin(cr), Begin(cl)), turns).exit == AllDelivered
    requires !ServeAll(cr, cl, Link(Begin(cr), Begin(cl)), turns).link.toRight.sendFailed
    ensures var f := ServeAll(cr, cl, Link(Begin(cr), Begin(cl)), turns).link.toRight;
            && GoodStream(key, messages) && Wire(messages) == first + Concat(f.chunks)
            && Forwarded(key, messages) == f.sent && f.shutWrite
  {
    var f := ServeAll(cr, cl, Link(Begin(cr), Begin(cl)), turns).link.toRight;
    var chunks := [first] + f.chunks;
    assert chunks[0] == first && chunks[1..] == f.chunks;
    assert FeedAll(key, INITIAL, chunks) == Prepend(cr.initial, FeedAll(key, cr.start, f.chunks));
    assert Accepts(key, chunks, f.sent);
    AcceptsWhatIsSpecified(key, chunks, f.sent);
    messages :| GoodStream(key, messages) && Wire(messages) == Concat(chunks) && Forwarded(key, messages) == f.sent;
  }

  // ---------------------------------------------------------------- the relay as it runs

  class Direction {
    const cfg: Config
    const rewriter: RequestStreamRewriter?
    var readOpen: bool
    var writeOpen: bool
    var buffer: bytes
    ghost var chunks: seq<bytes>
    ghost var sent: bytes
    ghost var sendFailed: bool
    ghost var shutWrite: bool
    ghost var asked: seq<nat>

    function Current(): Pipe
      reads this
    {
      Pipe(readOpen, writeOpen, buffer)
    }

    ghost function Snapshot(): Flow
      reads this, rewriter
    {
      Flow(Current(), if rewriter == null then cfg.start else rewriter.Current(),
           chunks, sent, sendFailed, shutWrite, asked)
    }

    predicate Configured() {
      if rewriter == null then !cfg.rewrites else cfg.rewrites && cfg.key == rewriter.apiKey
    }

    constructor (maxBuffer: nat, slack: nat, initial: bytes, rewriter: RequestStreamRewriter?)
      ensures this.rewriter == rewriter && Configured()
      ensures cfg == ConfigOf(maxBuffer, slack, initial, rewriter) && Snapshot() == Begin(cfg)
    {
      this.cfg, this.rewriter := ConfigOf(maxBuffer, slack, initial, rewriter), rewriter;
      readOpen, writeOpen, buffer := true, true, initial;
      chunks, sent, sendFailed, shutWrite, asked := [], [], false, false, [];
    }

    /** The top of the loop. */
    method StopIfDone()
      modifies this
      ensures Snapshot() == Half(old(Snapshot()))
    {
      if !readOpen && buffer == [] && writeOpen {
        writeOpen := false;
        shutWrite := true;
      }
      if !writeOpen && readOpen {
        readOpen := false;
      }
    }

    /** A readable source: one `recv`, through the rewriter if there is one. */
    method OnReadable(answer: Received) returns (error: Option<RelayError>)
      requires Configured() && Valid(Snapshot().parser) && |buffer| <= cfg.maxBuffer
      modifies this, rewriter
      ensures Reported(error, Snapshot()) == Receive(cfg, old(Snapshot()), answer)
    {
      var size := ReadSize(cfg, Current());
      asked := asked + [size];
      if answer == NothingYet {
        return None;
      }
      var data := Clipped(answer, size);
      if data == [] {
        error := AtEnd();
      } else {
        error := Absorb(data);
      }
    }

    method AtEnd() returns (error: Option<RelayError>)
      requires Configured() && Valid(Snapshot().parser)
      modifies this`readOpen
      ensures Reported(error, Snapshot()) == End(cfg, old(Snapshot()))
    {
      readOpen := false;
      if rewriter != null {
        var finished := rewriter.Finish();
        if finished.Err? {
          return Some(Stream(finished.error));
        }
      }
      return None;
    }

    method Absorb(data: bytes) returns (error: Option<RelayError>)
      requires Configured() && Valid(Snapshot().parser)
      modifies this, rewriter
      ensures Reported(error, Snapshot()) == Accept(cfg, old(Snapshot()), data)
    {
      if rewriter != null {
        var fed := rewriter.Feed(data);
        if fed.Err? {
          return Some(Stream(fed.error));
        }
        if |buffer| + |fed.value| > cfg.maxBuffer + TRANSFORM_BURST_BYTES {
          return Some(BurstExceedsBuffer);
        }
        buffer := buffer + fed.value;
      } else {
        buffer := buffer + data;
      }
      chunks := chunks + [data];
      return None;
    }

    /** A writable target: one `send` of the whole buffer. */
    method OnWritable(answer: Sent)
      modifies this
      ensures Snapshot() == Push(old(Snapshot()), answer)
    {
      match answer {
        case Taken(n) =>
          var count := Min(n, |buffer|);
          sent := sent + buffer[..count];
          buffer := buffer[count..];
        case Blocked =>
          sent := sent + [];
        case Broken =>
          sent := sent + [];
          writeOpen := false;
          sendFailed := true;
          buffer := [];
      }
    }
  }

  function ConfigOf(maxBuffer: nat, slack: nat, initial: bytes, rewriter: RequestStreamRewriter?): Config
    reads rewriter
  {
    if rewriter == null then Config(maxBuffer, slack, initial, false, [], INITIAL)
    else Config(maxBuffer, slack, initial, true, rewriter.apiKey, rewriter.Current())
  }

  predicate TooLong(maxBuffer: nat, slack: nat, initialToLeft: bytes, initialToRight: bytes) {
    |initialToLeft| > maxBuffer || |initialToRight| > maxBuffer + slack
  }

  /** `relay`: with slack TRANSFORM_BURST_BYTES and maybe a rewriter in the adapter, with neither in the proxy. */
  method Serve(slack: nat, initialToLeft: bytes, initialToRight: bytes, maxBuffer: nat,
               rewriter: RequestStreamRewriter?, turns: seq<Turn>)
    returns (exit: Exit, ghost link: Link)
    requires rewriter != null ==> Valid(rewriter.Current()) && Settled(rewriter.apiKey, rewriter.Current())
    requires rewriter != null ==> slack == TRANSFORM_BURST_BYTES
    modifies rewriter
    ensures exit == BadLimit <==> maxBuffer < BUFFER_SIZE
    ensures exit == InitialTooLong <==>
              maxBuffer >= BUFFER_SIZE && TooLong(maxBuffer, slack, initialToLeft, initialToRight)
    ensures exit !in {BadLimit, InitialTooLong} ==>
              var cr := old(ConfigOf(maxBuffer, slack, initialToRight, rewriter));
              var cl := Config(maxBuffer, 0, initialToLeft, false, [], INITIAL);
              && Sound(cr, Begin(cr)) && Sound(cl, Begin(cl))
              && Served(exit, link) == ServeAll(cr, cl, Link(Begin(cr), Begin(cl)), turns)
  {
    var none := Begin(Config(0, 0, [], false, [], INITIAL));
    link := Link(none, none);
    if maxBuffer < BUFFER_SIZE {
      return BadLimit, link;
    }
    if TooLong(maxBuffer, slack, initialToLeft, initialToRight) {
      return InitialTooLong, link;
    }
    var forward := new Direction(maxBuffer, slack, initialToRight, rewriter);
    var backward := new Direction(maxBuffer, 0, initialToLeft, null);
    ghost var cr, cl := forward.cfg, backward.cfg;
    BeginFaithful(cr);
    BeginFaithful(cl);
    exit := ServeLoop(forward, backward, turns);
    link := Link(forward.Snapshot(), backward.Snapshot());
  }

  method ServeLoop(forward: Direction, backward: Direction, turns: seq<Turn>) returns (exit: Exit)
    requires forward != backward && forward.Configured() && backward.Configured() && backward.rewriter == null
    requires forward.cfg.maxBuffer == backward.cfg.maxBuffer > 0
    requires Sound(forward.cfg, forward.Snapshot()) && Sound(backward.cfg, backward.Snapshot())
    modifies forward, backward, forward.rewriter
    ensures Served(exit, Link(forward.Snapshot(), backward.Snapshot()))
         == ServeAll(forward.cfg, backward.cfg, old(Link(forward.Snapshot(), backward.Snapshot())), turns)
  {
    ghost var cr, cl, start := forward.cfg, backward.cfg, Link(forward.Snapshot(), backward.Snapshot());
    assert turns[0..] == turns;
    for t := 0 to |turns|
      invariant Sound(cr, forward.Snapshot()) && Sound(cl, backward.Snapshot())
      invariant ServeAll(cr, cl, start, turns)
             == ServeAll(cr, cl, Link(forward.Snapshot(), backward.Snapshot()), turns[t..])
    {
      assert turns[t..][0] == turns[t] && turns[t..][1..] == turns[t + 1..];
      exit := OnePass(forward, backward, turns[t]);
      if exit != StillServing {
        return;
      }
    }
    exit := StillServing;
  }

  method OnePass(forward: Direction, backward: Direction, turn: Turn) returns (exit: Exit)
    requires forward != backward && forward.Configured() && backward.Configured() && backward.rewriter == null
    requires forward.cfg.maxBuffer == backward.cfg.maxBuffer > 0
    requires Sound(forward.cfg, forward.Snapshot()) && Sound(backward.cfg, backward.Snapshot())
    modifies forward, backward, forward.rewriter
    ensures Served(exit, Link(forward.Snapshot(), backward.Snapshot()))
         == ServeTurn(forward.cfg, backward.cfg, old(Link(forward.Snapshot(), backward.Snapshot())), turn)
  {
    HalfFaithful(forward.cfg, forward.Snapshot());
    HalfFaithful(backward.cfg, backward.Snapshot());
    forward.StopIfDone();
    backward.StopIfDone();
    exit := SelectAndHandle(forward, backward, turn);
  }

  method SelectAndHandle(forward: Direction, backward: Direction, turn: Turn) returns (exit: Exit)
    requires forward != backward && forward.Configured() && backward.Configured() && backward.rewriter == null
    requires forward.cfg.maxBuffer == backward.cfg.maxBuffer > 0
    requires Sound(forward.cfg, forward.Snapshot()) && Sound(backward.cfg, backward.Snapshot())
    requires HalfClosed(forward.Snapshot()) && HalfClosed(backward.Snapshot())
    modifies forward, backward, forward.rewriter
    ensures Served(exit, Link(forward.Snapshot(), backward.Snapshot()))
         == SelectTurn(forward.cfg, backward.cfg, old(forward.Snapshot()), old(backward.Snapshot()), turn)
  {
    if Delivered(forward.Current()) && Delivered(backward.Current()) {
      return AllDelivered;
    }
    var max := forward.cfg.maxBuffer;
    var leftRead, leftWrite := WantsRead(forward.Current(), max), WantsWrite(backward.Current());
    var rightRead, rightWrite := WantsRead(backward.Current(), max), WantsWrite(forward.Current());
    if !leftRead && !leftWrite && !rightRead && !rightWrite {
      return NothingRegistered;
    }
    if turn == Idle {
      return NoEvents;
    }
    var left, right := Registered(turn.left, leftRead, leftWrite), Registered(turn.right, rightRead, rightWrite);
    if !left.read && !left.write && !right.read && !right.write {
      return NoEvents;
    }
    exit := HandleEvents(forward, backward, left, right, turn.leftFirst);
  }

  method HandleEvents(forward: Direction, backward: Direction, left: Ready, right: Ready, leftFirst: bool)
    returns (exit: Exit)
    requires forward != backward && forward.Configured() && backward.Configured() && backward.rewriter == null
    requires Sound(forward.cfg, forward.Snapshot()) && Sound(backward.cfg, backward.Snapshot())
    requires (left.read ==> CanRead(forward.cfg, forward.Snapshot())) && (left.write ==> backward.writeOpen)
    requires (right.read ==> CanRead(backward.cfg, backward.Snapshot())) && (right.write ==> forward.writeOpen)
    modifies forward, backward, forward.rewriter
    ensures Served(exit, Link(forward.Snapshot(), backward.Snapshot()))
         == HandleBoth(forward.cfg, backward.cfg, old(forward.Snapshot()), old(backward.Snapshot()),
                       left, right, leftFirst)
  {
    var error;
    if leftFirst {
      error := HandleInOrder(forward, backward, left, right);
    } else {
      error := HandleInOrder(backward, forward, right, left);
    }
    return if error.Some? then Aborted(error.value) else StillServing;
  }

  method HandleInOrder(source: Direction, target: Direction, first: Ready, second: Ready)
    returns (error: Option<RelayError>)
    requires source != target && source.Configured() && target.Configured()
    requires source.rewriter == null || target.rewriter == null
    requires Sound(source.cfg, source.Snapshot()) && Sound(target.cfg, target.Snapshot())
    requires (first.read ==> CanRead(source.cfg, source.Snapshot())) && (first.write ==> target.writeOpen)
    requires (second.read ==> CanRead(target.cfg, target.Snapshot())) && (second.write ==> source.writeOpen)
    modifies source, target, source.rewriter, target.rewriter
    ensures Handled(error, source.Snapshot(), target.Snapshot())
         == HandleInTurn(source.cfg, target.cfg, old(source.Snapshot()), old(target.Snapshot()), first, second)
  {
    error := Handle(first, source, target);
    if error.None? {
      error := Handle(second, target, source);
    }
  }

  method Handle(ready: Ready, source: Direction, target: Direction) returns (error: Option<RelayError>)
    requires source != target && source.Configured() && target.Configured()
    requires source.rewriter == null || target.rewriter == null
    requires Sound(source.cfg, source.Snapshot()) && Sound(target.cfg, target.Snapshot())
    requires (ready.read ==> CanRead(source.cfg, source.Snapshot())) && (ready.write ==> target.writeOpen)
    modifies source, target, source.rewriter
    ensures Handled(error, source.Snapshot(), target.Snapshot())
         == HandleOne(source.cfg, target.cfg, old(source.Snapshot()), old(target.Snapshot()), ready)
  {
    error := None;
    if ready.read {
      ReceiveFaithful(source.cfg, source.Snapshot(), ready.received);
      error := source.OnReadable(ready.received);
      if error.Some? {
        return;
      }
    }
    if ready.write {
      target.OnWritable(ready.sent);
    }
  }

  // ---------------------------------------------------------------- giving up early

  /** Undelivered, and waiting for nothing. */
  predicate Stuck(p: Pipe, maxBuffer: nat) {
    !Delivered(p) && !WantsRead(p, maxBuffer) && !WantsWrite(p)
  }

  /** At the select, a direction is stuck exactly when its target is gone and bytes are left for it. */
  lemma StuckExactlyWhen(p: Pipe, maxBuffer: nat)
    requires maxBuffer > 0
    ensures Stuck(HalfClose(p), maxBuffer) <==> !p.writeOpen && p.buffer != []
    ensures Orderly(p) ==> (Delivered(HalfClose(p)) <==> Delivered(p))
  {
    if !p.writeOpen && p.buffer != [] {
      assert !HalfClose(p).readOpen && HalfClose(p).buffer == p.buffer;
    }
  }

  /** A read brings bytes, and they come out of the transformation. */
  predicate Brings(cfg: Config, f: Flow, answer: Received)
    requires Valid(f.parser) && |f.pipe.buffer| <= cfg.maxBuffer
  {
    var data := Clipped(answer, ReadSize(cfg, f.pipe));
    && data != []
    && (cfg.rewrites ==> FeedOnce(cfg.key, f.parser, data).Done? && FeedOnce(cfg.key, f.parser, data).out != [])
  }

  /** In one batch the `send` to a direction's target broke, and then its source brought more bytes. */
  predicate ReadAfterBreak(cfg: Config, f: Flow, source: Ready, target: Ready, targetFirst: bool)
    requires Valid(f.parser)
  {
    && targetFirst && target.write && target.sent == Broken && source.read
    && Brings(cfg, Push(f, Broken), source.received)
  }

  /** A target that is gone leaves bytes behind. */
  predicate Strands(p: Pipe) { !p.writeOpen && p.buffer != [] }

  /** Reading first is harmless: if the target breaks afterwards, what was read goes with the rest. */
  lemma ReadFirstIsHarmless(cs: Config, ct: Config, source: Flow, target: Flow, first: Ready, second: Ready)
    requires Sound(cs, source) && Sound(ct, target) && HalfClosed(source)
    requires (first.read ==> CanRead(cs, source)) && (first.write ==> target.pipe.writeOpen)
    requires (second.read ==> CanRead(ct, target)) && (second.write ==> source.pipe.writeOpen)
    requires HandleInTurn(cs, ct, source, target, first, second).error.None?
    ensures Strands(HandleInTurn(cs, ct, source, target, first, second).source.pipe) <==> Strands(source.pipe)
  {
  }

  lemma BreakFirstStrands(cs: Config, ct: Config, source: Flow, target: Flow, first: Ready, second: Ready)
    requires Sound(cs, source) && Sound(ct, target) && HalfClosed(target)
    requires (first.read ==> CanRead(cs, source)) && (first.write ==> target.pipe.writeOpen)
    requires (second.read ==> CanRead(ct, target)) && (second.write ==> source.pipe.writeOpen)
    requires HandleInTurn(cs, ct, source, target, first, second).error.None?
    ensures Strands(HandleInTurn(cs, ct, source, target, first, second).target.pipe)
       <==> Strands(target.pipe) || ReadAfterBreak(ct, target, second, first, true)
  {
  }

  /** One batch strands bytes, in either direction, exactly that way. */
  lemma StrandedByReadAfterBreak(cr: Config, cl: Config, f: Flow, b: Flow, left: Ready, right: Ready, leftFirst: bool)
    requires Sound(cr, f) && Sound(cl, b) && !cl.rewrites && HalfClosed(f) && HalfClosed(b)
    requires (left.read ==> CanRead(cr, f)) && (left.write ==> b.pipe.writeOpen)
    requires (right.read ==> CanRead(cl, b)) && (right.write ==> f.pipe.writeOpen)
    requires HandleBoth(cr, cl, f, b, left, right, leftFirst).exit == StillServing
    ensures var link := HandleBoth(cr, cl, f, b, left, right, leftFirst).link;
            && (Strands(link.toRight.pipe) <==> Strands(f.pipe) || ReadAfterBreak(cr, f, left, right, !leftFirst))
            && (Strands(link.toLeft.pipe) <==> Strands(b.pipe) || ReadAfterBreak(cl, b, right, left, leftFirst))
  {
    if leftFirst {
      ReadFirstIsHarmless(cr, cl, f, b, left, right);
      BreakFirstStrands(cr, cl, f, b, left, right);
    } else {
      ReadFirstIsHarmless(cl, cr, b, f, right, left);
      BreakFirstStrands(cl, cr, b, f, right, left);
    }
  }

  /** Some direction has bytes that nobody will write. */
  predicate Stranded(link: Link) {
    Strands(link.toRight.pipe) || Strands(link.toLeft.pipe)
  }

  /** This pass goes through and strands bytes of some direction. */
  predicate TurnStrands(cr: Config, cl: Config, link: Link, turn: Turn)
    requires Sound(cr, link.toRight) && Sound(cl, link.toLeft)
    requires cr.maxBuffer == cl.maxBuffer > 0 && !cl.rewrites
  {
    var f, b := Half(link.toRight), Half(link.toLeft);
    && ServeTurn(cr, cl, link, turn).exit == StillServing && turn.Events?
    && var left := Registered(turn.left, WantsRead(f.pipe, cr.maxBuffer), WantsWrite(b.pipe));
       var right := Registered(turn.right, WantsRead(b.pipe, cr.maxBuffer), WantsWrite(f.pipe));
       ReadAfterBreak(cr, f, left, right, !turn.leftFirst) || ReadAfterBreak(cl, b, right, left, turn.leftFirst)
  }

  lemma StrandedAfterTurn(cr: Config, cl: Config, link: Link, turn: Turn)
    requires Sound(cr, link.toRight) && Sound(cl, link.toLeft)
    requires cr.maxBuffer == cl.maxBuffer > 0 && !cl.rewrites
    requires ServeTurn(cr, cl, link, turn).exit == StillServing
    ensures Stranded(ServeTurn(cr, cl, link, turn).link) <==> Stranded(link) || TurnStrands(cr, cl, link, turn)
  {
    HalfFaithful(cr, link.toRight);
    HalfFaithful(cl, link.toLeft);
    var f, b := Half(link.toRight), Half(link.toLeft);
    var left := Registered(turn.left, WantsRead(f.pipe, cr.maxBuffer), WantsWrite(b.pipe));
    var right := Registered(turn.right, WantsRead(b.pipe, cr.maxBuffer), WantsWrite(f.pipe));
    StrandedByReadAfterBreak(cr, cl, f, b, left, right, turn.leftFirst);
  }

  /** Some pass of the run strands bytes. */
  predicate RunStrands(cr: Config, cl: Config, link: Link, turns: seq<Turn>)
    requires Sound(cr, link.toRight) && Sound(cl, link.toLeft)
    requires cr.maxBuffer == cl.maxBuffer > 0 && !cl.rewrites
    decreases |turns|
  {
    && turns != []
    && var one := ServeTurn(cr, cl, link, turns[0]);
       TurnStrands(cr, cl, link, turns[0]) || (one.exit == StillServing && RunStrands(cr, cl, one.link, turns[1..]))
  }

  /**
   * Giving up early, exactly: when the loop returns because both directions are done or nothing is registered, it is
   * the latter if and only if bytes were stranded from the start or by some pass.
   */
  lemma {:induction false} GivesUpExactlyWhenStranded(cr: Config, cl: Config, link: Link, turns: seq<Turn>)
    requires Sound(cr, link.toRight) && Sound(cl, link.toLeft)
    requires cr.maxBuffer == cl.maxBuffer > 0 && !cl.rewrites
    requires ServeAll(cr, cl, link, turns).exit in {AllDelivered, NothingRegistered}
    ensures ServeAll(cr, cl, link, turns).exit == NothingRegistered
       <==> Stranded(link) || RunStrands(cr, cl, link, turns)
    decreases |turns|
  {
    var one := ServeTurn(cr, cl, link, turns[0]);
    if one.exit == StillServing {
      StrandedAfterTurn(cr, cl, link, turns[0]);
      GivesUpExactlyWhenStranded(cr, cl, one.link, turns[1..]);
    } else {
      LastPass(cr, cl, link, turns[0]);
    }
  }

  lemma LastPass(cr: Config, cl: Config, link: Link, turn: Turn)
    requires Sound(cr, link.toRight) && Sound(cl, link.toLeft)
    requires cr.maxBuffer == cl.maxBuffer > 0 && !cl.rewrites
    requires ServeTurn(cr, cl, link, turn).exit in {AllDelivered, NothingRegistered}
    ensures ServeTurn(cr, cl, link, turn).exit == NothingRegistered <==> Stranded(link)
  {
    StuckExactlyWhen(link.toRight.pipe, cr.maxBuffer);
    StuckExactlyWhen(link.toLeft.pipe, cr.maxBuffer);
  }

  /**
   * And that happens: the target breaks and, in the same batch of events, more bytes are read for it. They
   * stay in the buffer of a direction nobody will write, and once the other direction ends the relay gives up.
   */
  lemma BytesLostToBrokenSend(cr: Config, cl: Config, data: bytes) returns (turns: seq<Turn>)
    requires GoodConfig(cr) && GoodConfig(cl) && !cr.rewrites && !cl.rewrites && cr.maxBuffer == cl.maxBuffer > 0
    requires 0 < |cr.initial| < cr.maxBuffer && cl.initial == []
    requires 0 < |data| <= cr.maxBuffer && |data| <= BUFFER_SIZE
    ensures Sound(cr, Begin(cr)) && Sound(cl, Begin(cl))
    ensures var r := ServeAll(cr, cl, Link(Begin(cr), Begin(cl)), turns);
            && r.exit == NothingRegistered && r.link.toRight.pipe.buffer == data
            && r.link.toRight.sent == [] && Owed(cr, r.link.toRight) == cr.initial + data
  {
    BeginFaithful(cr);
    BeginFaithful(cl);
    var nothing := Ready(false, NothingYet, false, Blocked);
    var breaks := Events(nothing.(read := true, received := Arrived(data)),
                         nothing.(write := true, sent := Broken), false);
    var ends := Events(nothing, nothing.(read := true, received := Ended), true);
    turns := [breaks, ends, ends];
    var start := Link(Begin(cr), Begin(cl));
    var one := FirstTurnBreaks(cr, cl, data, breaks);
    var two := SecondTurnEnds(cr, cl, one, ends);
    var three := ServeTurn(cr, cl, two, ends);
    assert Half(two.toLeft).pipe == Pipe(false, false, []);
    assert three.exit == NothingRegistered;
    assert turns[1..] == [ends, ends] && [ends, ends][1..] == [ends];
    assert ServeAll(cr, cl, two, [ends]) == three;
    assert ServeAll(cr, cl, one, [ends, ends]) == three;
    assert ServeAll(cr, cl, start, turns) == three;
    assert Concat([data]) == data + Concat([data][1..]) == data;
  }

  lemma FirstTurnBreaks(cr: Config, cl: Config, data: bytes, turn: Turn) returns (link: Link)
    requires GoodConfig(cr) && GoodConfig(cl) && !cr.rewrites && !cl.rewrites && cr.maxBuffer == cl.maxBuffer > 0
    requires 0 < |cr.initial| < cr.maxBuffer && cl.initial == []
    requires 0 < |data| <= cr.maxBuffer && |data| <= BUFFER_SIZE
    requires turn.Events? && !turn.leftFirst && turn.left == Ready(true, Arrived(data), false, Blocked)
    requires turn.right == Ready(false, NothingYet, true, Broken)
    ensures Sound(cr, Begin(cr)) && Sound(cl, Begin(cl))
    ensures ServeTurn(cr, cl, Link(Begin(cr), Begin(cl)), turn) == Served(StillServing, link)
    ensures link.toRight.pipe == Pipe(true, false, data) && link.toRight.chunks == [data]
    ensures link.toRight.sent == [] && link.toLeft == Begin(cl)
    ensures Sound(cr, link.toRight) && Sound(cl, link.toLeft)
  {
    BeginFaithful(cr);
    BeginFaithful(cl);
    var f, b := Begin(cr), Begin(cl);
    assert Half(f) == f && Half(b) == b;
    var pushed := Push(f, Broken);
    assert pushed.pipe == Pipe(true, false, []) && pushed.sent == [];
    assert HandleOne(cl, cr, b, f, turn.right) == Handled(None, b, pushed);
    assert Clipped(Arrived(data), ReadSize(cr, pushed.pipe)) == data;
    var received := Receive(cr, pushed, Arrived(data)).flow;
    assert received.pipe.buffer == [] + data == data && received.chunks == [] + [data];
    assert HandleOne(cr, cl, pushed, b, turn.left) == Handled(None, received, b);
    link := Link(received, b);
    AllRegistered(cr, cl, Link(f, b), turn);
  }

  /** Events that are all registered for are handled as they are. */
  lemma AllRegistered(cr: Config, cl: Config, link: Link, turn: Turn)
    requires Sound(cr, link.toRight) && Sound(cl, link.toLeft) && cr.maxBuffer == cl.maxBuffer > 0 && !cl.rewrites
    requires turn.Events? && (turn.left.read || turn.right.read)
    requires turn.left.read ==> WantsRead(Half(link.toRight).pipe, cr.maxBuffer)
    requires turn.left.write ==> WantsWrite(Half(link.toLeft).pipe)
    requires turn.right.read ==> WantsRead(Half(link.toLeft).pipe, cr.maxBuffer)
    requires turn.right.write ==> WantsWrite(Half(link.toRight).pipe)
    ensures Sound(cr, Half(link.toRight)) && Sound(cl, Half(link.toLeft))
    ensures ServeTurn(cr, cl, link, turn)
         == HandleBoth(cr, cl, Half(link.toRight), Half(link.toLeft), turn.left, turn.right, turn.leftFirst)
  {
    HalfFaithful(cr, link.toRight);
    HalfFaithful(cl, link.toLeft);
  }

  lemma SecondTurnEnds(cr: Config, cl: Config, one: Link, turn: Turn) returns (link: Link)
    requires Sound(cr, one.toRight) && Sound(cl, one.toLeft) && !cl.rewrites && cr.maxBuffer == cl.maxBuffer > 0
    requires one.toRight.pipe.readOpen && !one.toRight.pipe.writeOpen && one.toRight.pipe.buffer != []
    requires one.toLeft.pipe == Pipe(true, true, [])
    requires turn.Events? && turn.leftFirst && turn.left == Ready(false, NothingYet, false, Blocked)
    requires turn.right == Ready(true, Ended, false, Blocked)
    ensures ServeTurn(cr, cl, one, turn) == Served(StillServing, link)
    ensures link.toRight == one.toRight.(pipe := one.toRight.pipe.(readOpen := false))
    ensures link.toLeft.pipe == Pipe(false, true, [])
    ensures Sound(cr, link.toRight) && Sound(cl, link.toLeft)
  {
    HalfFaithful(cr, one.toRight);
    var f, b := Half(one.toRight), Half(one.toLeft);
    assert b == one.toLeft;
    assert HandleOne(cr, cl, f, b, turn.left) == Handled(None, f, b);
    var ended := Receive(cl, b, Ended).flow;
    assert HandleOne(cl, cr, b, f, turn.right) == Handled(None, ended, f);
    link := Link(f, ended);
    AllRegistered(cr, cl, one, turn);
  }
}
