/**
 * What a pass of the relay does to a direction, in terms of what its two sockets answered; and that the relay ends
 * only on such grounds, and can always be brought to its end.
 */
module RelayProgress {
  import opened Bytes
  import opened StreamRewriter
  import opened Fragmentation
  import opened BurstBound
  import opened Relay

  // ---------------------------------------------------------------- one direction in one pass

  /** The source was read and had nothing, or was not read at all. */
  predicate Quiet(source: Ready) {
    source.read ==> source.received == NothingYet
  }

  /** The source was read and had ended. */
  predicate Ended(source: Ready) {
    source.read && (source.received.Ended? || (source.received.Arrived? && source.received.data == []))
  }

  /** The source was read and had bytes. */
  predicate Brought(source: Ready) {
    source.read && source.received.Arrived? && source.received.data != []
  }

  predicate Broke(target: Ready) {
    target.write && target.sent == Broken
  }

  /** The bytes taken in are the beginning of those that arrived: all of them, or as many as were asked for. */
  predicate TookIn(f: Flow, g: Flow, data: bytes) {
    && |g.chunks| == |f.chunks| + 1 && f.chunks <= g.chunks && g.asked != []
    && var last := g.chunks[|f.chunks|];
       last != [] && last <= data && (|last| == |data| || |last| == g.asked[|g.asked| - 1])
  }

  /** One more `recv`, for as much as one may ask for or as there was room for. */
  predicate AskedFor(cfg: Config, f: Flow, g: Flow) {
    && |g.asked| == |f.asked| + 1 && f.asked <= g.asked
    && var size, limit := g.asked[|f.asked|], if cfg.rewrites then TRANSFORM_READ_SIZE else BUFFER_SIZE;
       1 <= size <= limit && (size == limit || size + |f.pipe.buffer| >= cfg.maxBuffer)
  }

  /** The target took some of the bytes there were, as many as it said or all. */
  predicate TookOut(f: Flow, g: Flow, count: nat) {
    && f.sent <= g.sent
    && (|g.sent| == |f.sent| + count || (|g.sent| < |f.sent| + count && f.sent + f.pipe.buffer <= g.sent))
  }

  /** What a pass in which these events were handled has made of a direction. */
  predicate Follows(cfg: Config, f: Flow, source: Ready, target: Ready, g: Flow) {
    && (g.pipe.readOpen <==> f.pipe.readOpen && !Ended(source))
    && (g.pipe.writeOpen <==> f.pipe.writeOpen && !Broke(target))
    && (g.sendFailed <==> f.sendFailed || Broke(target))
    && g.shutWrite == f.shutWrite
    && (!Brought(source) && (target.write ==> target.sent == Blocked) ==> g.pipe.buffer == f.pipe.buffer)
    && (if Brought(source) then TookIn(f, g, source.received.data) else g.chunks == f.chunks && g.parser == f.parser)
    && (if source.read then AskedFor(cfg, f, g) else g.asked == f.asked)
    && (if target.write && target.sent.Taken? then TookOut(f, g, target.sent.count) else g.sent == f.sent)
  }

  lemma ReadEffect(cfg: Config, f: Flow, answer: Received)
    requires Sound(cfg, f) && CanRead(cfg, f) && Receive(cfg, f, answer).Went?
    ensures var g := Receive(cfg, f, answer).flow;
            && Follows(cfg, f, Ready(true, answer, false, Blocked), Ready(false, NothingYet, false, Blocked), g)
            && f.pipe.buffer <= g.pipe.buffer && g.pipe.writeOpen == f.pipe.writeOpen
            && (answer == NothingYet ==> g.pipe == f.pipe)
  {
  }

  lemma WriteEffect(cfg: Config, f: Flow, answer: Sent)
    requires f.pipe.writeOpen
    ensures Follows(cfg, f, Ready(false, NothingYet, false, Blocked), Ready(false, NothingYet, true, answer),
                    Push(f, answer))
    ensures |Push(f, answer).pipe.buffer| <= |f.pipe.buffer|
    ensures answer == Blocked ==> Push(f, answer).pipe == f.pipe
  {
  }

  /** Reading the source first, then writing to the target. */
  lemma ReadThenWrite(cfg: Config, f: Flow, m: Flow, g: Flow, source: Ready, target: Ready)
    requires Follows(cfg, f, source, target.(write := false), m) && f.pipe.buffer <= m.pipe.buffer
    requires target.write ==> m.pipe.writeOpen && g == Push(m, target.sent)
    requires !target.write ==> g == m
    ensures Follows(cfg, f, source, target, g)
  {
    if target.write {
      WriteEffect(cfg, m, target.sent);
      if target.sent.Taken? && |g.sent| < |f.sent| + target.sent.count {
        assert f.sent + f.pipe.buffer <= m.sent + m.pipe.buffer;
      }
    }
  }

  /** Writing to the target first, then reading the source. */
  lemma WriteThenRead(cfg: Config, f: Flow, m: Flow, g: Flow, source: Ready, target: Ready)
    requires target.write ==> f.pipe.writeOpen && m == Push(f, target.sent)
    requires !target.write ==> m == f
    requires Follows(cfg, m, source, target.(write := false), g)
    ensures Follows(cfg, f, source, target, g)
  {
    if target.write {
      WriteEffect(cfg, f, target.sent);
    }
  }

  lemma NotRead(cfg: Config, f: Flow, source: Ready, target: Ready)
    requires !source.read && !target.write
    ensures Follows(cfg, f, source, target, f)
  {
  }

  lemma AfterRead(cfg: Config, f: Flow, source: Ready, target: Ready, g: Flow)
    requires Sound(cfg, f) && !target.write && (source.read ==> CanRead(cfg, f))
    requires source.read ==> Receive(cfg, f, source.received) == Went(g)
    requires !source.read ==> g == f
    ensures Follows(cfg, f, source, target, g) && f.pipe.buffer <= g.pipe.buffer
  {
    if source.read {
      ReadEffect(cfg, f, source.received);
    }
  }

  /** Both directions, when the events of one socket are handled and then those of the other. */
  lemma BatchEffect(cs: Config, ct: Config, source: Flow, target: Flow, first: Ready, second: Ready)
    requires Sound(cs, source) && Sound(ct, target)
    requires (first.read ==> CanRead(cs, source)) && (first.write ==> target.pipe.writeOpen)
    requires (second.read ==> CanRead(ct, target)) && (second.write ==> source.pipe.writeOpen)
    requires HandleInTurn(cs, ct, source, target, first, second).error.None?
    ensures var h := HandleInTurn(cs, ct, source, target, first, second);
            Follows(cs, source, first, second, h.source) && Follows(ct, target, second, first, h.target)
  {
    var one := HandleOne(cs, ct, source, target, first);
    var two := HandleOne(ct, cs, one.target, one.source, second);
    AfterRead(cs, source, first, second.(write := false), one.source);
    ReadThenWrite(cs, source, one.source, two.target, first, second);
    AfterRead(ct, one.target, second, first.(write := false), two.source);
    WriteThenRead(ct, target, one.target, two.source, second, first);
  }

  // ---------------------------------------------------------------- one pass

  /** What a socket reports, as far as the loop waits for it: to read while there is room, to write while bytes wait. */
  function Awaited(reported: Ready, fed: Pipe, drained: Pipe, max: nat): Ready {
    reported.(read := reported.read && fed.readOpen && fed.writeOpen && |fed.buffer| < max,
              write := reported.write && drained.writeOpen && drained.buffer != [])
  }

  function LeftEvents(cr: Config, link: Link, turn: Turn): Ready
    requires turn.Events?
  {
    Awaited(turn.left, Half(link.toRight).pipe, Half(link.toLeft).pipe, cr.maxBuffer)
  }

  function RightEvents(cr: Config, link: Link, turn: Turn): Ready
    requires turn.Events?
  {
    Awaited(turn.right, Half(link.toLeft).pipe, Half(link.toRight).pipe, cr.maxBuffer)
  }

  predicate SomethingHappens(cr: Config, link: Link, turn: Turn) {
    && turn.Events?
    && (|| LeftEvents(cr, link, turn).read || LeftEvents(cr, link, turn).write
        || RightEvents(cr, link, turn).read || RightEvents(cr, link, turn).write)
  }

  /** When a pass goes on to handle events: unless all is delivered, exactly when something it waits for is reported. */
  lemma PassHandles(cr: Config, cl: Config, link: Link, turn: Turn)
    requires Sound(cr, link.toRight) && Sound(cl, link.toLeft)
    requires cr.maxBuffer == cl.maxBuffer > 0 && !cl.rewrites
    ensures var exit := ServeTurn(cr, cl, link, turn).exit;
            && (exit == StillServing || exit.Aborted? <==> SomethingHappens(cr, link, turn))
            && (exit == AllDelivered <==> Delivered(Half(link.toRight).pipe) && Delivered(Half(link.toLeft).pipe))
  {
    HalfFaithful(cr, link.toRight);
    HalfFaithful(cl, link.toLeft);
  }

  lemma AwaitedIsRegistered(reported: Ready, fed: Pipe, drained: Pipe, max: nat)
    ensures Awaited(reported, fed, drained, max) == Registered(reported, WantsRead(fed, max), WantsWrite(drained))
  {
  }

  /** The events handled are those awaited. */
  lemma HandlesAwaited(cr: Config, cl: Config, link: Link, turn: Turn)
    requires Sound(cr, link.toRight) && Sound(cl, link.toLeft)
    requires cr.maxBuffer == cl.maxBuffer > 0 && !cl.rewrites
    requires ServeTurn(cr, cl, link, turn).exit == StillServing || ServeTurn(cr, cl, link, turn).exit.Aborted?
    ensures Sound(cr, Half(link.toRight)) && Sound(cl, Half(link.toLeft)) && turn.Events?
    ensures var left, right := LeftEvents(cr, link, turn), RightEvents(cr, link, turn);
            && (left.read ==> CanRead(cr, Half(link.toRight))) && (left.write ==> Half(link.toLeft).pipe.writeOpen)
            && (right.read ==> CanRead(cl, Half(link.toLeft))) && (right.write ==> Half(link.toRight).pipe.writeOpen)
            && ServeTurn(cr, cl, link, turn)
               == HandleBoth(cr, cl, Half(link.toRight), Half(link.toLeft), left, right, turn.leftFirst)
  {
    HalfFaithful(cr, link.toRight);
    HalfFaithful(cl, link.toLeft);
    if turn.Events? {
      AwaitedIsRegistered(turn.left, Half(link.toRight).pipe, Half(link.toLeft).pipe, cr.maxBuffer);
      AwaitedIsRegistered(turn.right, Half(link.toLeft).pipe, Half(link.toRight).pipe, cr.maxBuffer);
    }
  }

  /**
   * What a pass does, exactly: each direction, its half-closes done, follows what its source and its target
   * answered. A source that has nothing yet changes nothing; only one that has ended is no longer read.
   */
  lemma PassEffect(cr: Config, cl: Config, link: Link, turn: Turn)
    requires Sound(cr, link.toRight) && Sound(cl, link.toLeft)
    requires cr.maxBuffer == cl.maxBuffer > 0 && !cl.rewrites
    requires ServeTurn(cr, cl, link, turn).exit == StillServing
    ensures turn.Events?
    ensures var next := ServeTurn(cr, cl, link, turn).link;
            var left, right := LeftEvents(cr, link, turn), RightEvents(cr, link, turn);
            && Follows(cr, Half(link.toRight), left, right, next.toRight)
            && Follows(cl, Half(link.toLeft), right, left, next.toLeft)
  {
    HandlesAwaited(cr, cl, link, turn);
    var f, b := Half(link.toRight), Half(link.toLeft);
    var left, right := LeftEvents(cr, link, turn), RightEvents(cr, link, turn);
    if turn.leftFirst {
      BatchEffect(cr, cl, f, b, left, right);
    } else {
      BatchEffect(cl, cr, b, f, right, left);
    }
  }

  // ---------------------------------------------------------------- what ends the relay

  /** The rewriter was given bytes it raises on, or the end of the stream inside a request. */
  predicate Objects(cfg: Config, f: Flow, source: Ready, e: RelayError) {
    && cfg.rewrites
    && (if e == Stream(ClosedDuringRequest) then Ended(source) && !Finishes(f.parser) else Brought(source))
  }

  /** Bytes alone never bring the complaint about the end of the stream. */
  lemma {:induction false} BytesDoNotClose(key: bytes, s: State)
    requires Valid(s) && Run(key, s).Failed?
    ensures Run(key, s).error != ClosedDuringRequest
    decreases |s.pending|
  {
    if Step(key, s).Emit? {
      StepProgress(key, s);
      BytesDoNotClose(key, Step(key, s).next);
    }
  }

  lemma ReadObjects(cfg: Config, f: Flow, source: Ready)
    requires Sound(cfg, f) && source.read && CanRead(cfg, f) && Receive(cfg, f, source.received).Stopped?
    ensures Objects(cfg, f, source, Receive(cfg, f, source.received).error)
  {
    var data := Clipped(source.received, ReadSize(cfg, f.pipe));
    if source.received.Arrived? && data != [] && FeedOnce(cfg.key, f.parser, data).Failed? {
      BytesDoNotClose(cfg.key, With(f.parser, data));
    }
  }

  lemma BatchObjects(cs: Config, ct: Config, source: Flow, target: Flow, first: Ready, second: Ready)
    requires Sound(cs, source) && Sound(ct, target)
    requires (first.read ==> CanRead(cs, source)) && (first.write ==> target.pipe.writeOpen)
    requires (second.read ==> CanRead(ct, target)) && (second.write ==> source.pipe.writeOpen)
    requires HandleInTurn(cs, ct, source, target, first, second).error.Some?
    ensures var e := HandleInTurn(cs, ct, source, target, first, second).error.value;
            Objects(cs, source, first, e) || Objects(ct, target, second, e)
  {
    var one := HandleOne(cs, ct, source, target, first);
    if one.error.Some? {
      ReadObjects(cs, source, first);
    } else {
      ReadObjects(ct, one.target, second);
    }
  }

  /** The relay aborts only because the rewriter objects to what its source brought, or did not bring. */
  lemma AbortsOnlyFor(cr: Config, cl: Config, link: Link, turn: Turn, e: RelayError)
    requires Sound(cr, link.toRight) && Sound(cl, link.toLeft)
    requires cr.maxBuffer == cl.maxBuffer > 0 && !cl.rewrites
    requires ServeTurn(cr, cl, link, turn).exit == Aborted(e)
    ensures turn.Events? && Objects(cr, link.toRight, LeftEvents(cr, link, turn), e)
  {
    HandlesAwaited(cr, cl, link, turn);
    var f, b := Half(link.toRight), Half(link.toLeft);
    var left, right := LeftEvents(cr, link, turn), RightEvents(cr, link, turn);
    if turn.leftFirst {
      BatchObjects(cr, cl, f, b, left, right);
    } else {
      BatchObjects(cl, cr, b, f, right, left);
    }
  }

  /** No source ends and no target breaks. */
  predicate Upright(turn: Turn) {
    turn.Events? ==> forall r :: r in {turn.left, turn.right} ==> !Ended(r.(read := true)) && r.sent != Broken
  }

  predicate Open(link: Link) {
    && link.toRight.pipe.readOpen && link.toRight.pipe.writeOpen
    && link.toLeft.pipe.readOpen && link.toLeft.pipe.writeOpen
  }

  /** The ways out that need the end of a stream or a broken target. */
  predicate Early(exit: Exit) {
    exit in {AllDelivered, NothingRegistered} || exit == Aborted(Stream(ClosedDuringRequest))
  }

  lemma UprightPass(cr: Config, cl: Config, link: Link, turn: Turn)
    requires Sound(cr, link.toRight) && Sound(cl, link.toLeft)
    requires cr.maxBuffer == cl.maxBuffer > 0 && !cl.rewrites && Open(link) && Upright(turn)
    ensures var r := ServeTurn(cr, cl, link, turn);
            !Early(r.exit) && (r.exit == StillServing ==> Open(r.link))
  {
    assert Half(link.toRight) == link.toRight && Half(link.toLeft) == link.toLeft;
    var r := ServeTurn(cr, cl, link, turn);
    if r.exit == StillServing {
      PassEffect(cr, cl, link, turn);
    }
    if r.exit.Aborted? {
      AbortsOnlyFor(cr, cl, link, turn, r.exit.cause);
    }
  }

  /** While no source ends and no target breaks, nothing is half-closed, given up or delivered for good. */
  lemma {:induction false} StaysOpen(cr: Config, cl: Config, link: Link, turns: seq<Turn>)
    requires Sound(cr, link.toRight) && Sound(cl, link.toLeft)
    requires cr.maxBuffer == cl.maxBuffer > 0 && !cl.rewrites && Open(link)
    requires forall i :: 0 <= i < |turns| ==> Upright(turns[i])
    ensures var r := ServeAll(cr, cl, link, turns);
            !Early(r.exit) && (r.exit == StillServing ==> Open(r.link))
    decreases |turns|
  {
    if turns != [] {
      UprightPass(cr, cl, link, turns[0]);
      var one := ServeTurn(cr, cl, link, turns[0]);
      if one.exit == StillServing {
        StaysOpen(cr, cl, one.link, turns[1..]);
      }
    }
  }

  // ---------------------------------------------------------------- the relay can always be ended

  /** Both sources have ended and both targets take whatever there is. */
  function Flush(room: nat): Turn {
    var both := Ready(true, Received.Ended, true, Taken(room));
    Events(both, both, true)
  }

  /** The passes a direction still needs: to empty its buffer, and to see the end of its source. */
  function Rank(f: Flow): nat {
    if Delivered(f.pipe) then 0 else if f.pipe.buffer == [] then 1 else 2
  }

  function Less(n: nat): nat { if n == 0 then 0 else n - 1 }

  /** The source may end here. */
  predicate MayEnd(cfg: Config, f: Flow) {
    cfg.rewrites ==> !f.pipe.readOpen || Finishes(f.parser)
  }

  predicate Endable(cr: Config, cl: Config, link: Link, room: nat) {
    && Sound(cr, link.toRight) && Sound(cl, link.toLeft)
    && cr.maxBuffer == cl.maxBuffer > 0 && !cl.rewrites
    && !Stranded(link) && MayEnd(cr, link.toRight)
    && room >= cr.maxBuffer + cr.slack && room >= cl.maxBuffer + cl.slack
  }

  /** After a flush a direction has no bytes left, and has seen the end if it was read. */
  lemma FlushedDirection(cfg: Config, f: Flow, source: Ready, target: Ready, g: Flow, room: nat)
    requires Sound(cfg, f) && Sound(cfg, g) && HalfClosed(f) && !Strands(f.pipe) && Follows(cfg, f, source, target, g)
    requires source.received == Received.Ended
    requires source.read <==> f.pipe.readOpen && f.pipe.writeOpen && |f.pipe.buffer| < cfg.maxBuffer
    requires target.sent == Taken(room) && room >= cfg.maxBuffer + cfg.slack
    requires target.write <==> f.pipe.writeOpen && f.pipe.buffer != []
    requires cfg.maxBuffer > 0
    ensures Rank(g) <= Less(Rank(f)) && !Strands(g.pipe)
    ensures g.parser == f.parser && (g.pipe.readOpen ==> f.pipe.readOpen)
  {
    if target.write {
      assert !f.sendFailed && Owed(cfg, f) == f.sent + f.pipe.buffer;
      assert !g.sendFailed && Owed(cfg, g) == g.sent + g.pipe.buffer;
      assert Owed(cfg, g) == Owed(cfg, f);
      assert |f.sent + f.pipe.buffer| == |f.sent| + |f.pipe.buffer|;
      assert f.sent + f.pipe.buffer <= g.sent || |g.sent| == |f.sent| + room;
      assert g.pipe.buffer == [];
    }
  }

  lemma FlushExit(cr: Config, cl: Config, link: Link, room: nat)
    requires Endable(cr, cl, link, room)
    ensures ServeTurn(cr, cl, link, Flush(room)).exit in {AllDelivered, StillServing}
    ensures Rank(link.toRight) == 0 && Rank(link.toLeft) == 0 ==>
              ServeTurn(cr, cl, link, Flush(room)).exit == AllDelivered
  {
    HalfFaithful(cr, link.toRight);
    HalfFaithful(cl, link.toLeft);
    StuckExactlyWhen(link.toRight.pipe, cr.maxBuffer);
    StuckExactlyWhen(link.toLeft.pipe, cr.maxBuffer);
    var r := ServeTurn(cr, cl, link, Flush(room));
    if r.exit.Aborted? {
      AbortsOnlyFor(cr, cl, link, Flush(room), r.exit.cause);
    }
  }

  lemma HalfKeepsRank(f: Flow)
    requires !Strands(f.pipe)
    ensures Rank(Half(f)) <= Rank(f) && !Strands(Half(f).pipe) && Half(f).parser == f.parser
    ensures Half(f).pipe.readOpen ==> f.pipe.readOpen
  {
  }

  lemma FlushPass(cr: Config, cl: Config, link: Link, room: nat)
    requires Endable(cr, cl, link, room) && ServeTurn(cr, cl, link, Flush(room)).exit == StillServing
    ensures var next := ServeTurn(cr, cl, link, Flush(room)).link;
            && Endable(cr, cl, next, room)
            && Rank(next.toRight) <= Less(Rank(link.toRight)) && Rank(next.toLeft) <= Less(Rank(link.toLeft))
  {
    var turn := Flush(room);
    HalfFaithful(cr, link.toRight);
    HalfFaithful(cl, link.toLeft);
    HalfKeepsRank(link.toRight);
    HalfKeepsRank(link.toLeft);
    PassEffect(cr, cl, link, turn);
    var next := ServeTurn(cr, cl, link, turn).link;
    var left, right := LeftEvents(cr, link, turn), RightEvents(cr, link, turn);
    FlushedDirection(cr, Half(link.toRight), left, right, next.toRight, room);
    FlushedDirection(cl, Half(link.toLeft), right, left, next.toLeft, room);
  }

  /**
   * From every state in which no bytes are stranded and the rewriter may end, the relay ends with both directions
   * delivered, at the latest in the third pass, once both sources end and both targets take what there is.
   */
  lemma CanBeEnded(cr: Config, cl: Config, link: Link, room: nat)
    requires Endable(cr, cl, link, room)
    ensures ServeAll(cr, cl, link, [Flush(room), Flush(room), Flush(room)]).exit == AllDelivered
  {
    var turns := [Flush(room), Flush(room), Flush(room)];
    assert turns[1..] == [Flush(room), Flush(room)] && turns[1..][1..] == [Flush(room)];
    FlushExit(cr, cl, link, room);
    var one := ServeTurn(cr, cl, link, Flush(room));
    if one.exit == StillServing {
      FlushPass(cr, cl, link, room);
      FlushExit(cr, cl, one.link, room);
      var two := ServeTurn(cr, cl, one.link, Flush(room));
      if two.exit == StillServing {
        FlushPass(cr, cl, one.link, room);
        FlushExit(cr, cl, two.link, room);
        assert ServeAll(cr, cl, two.link, [Flush(room)]) == ServeTurn(cr, cl, two.link, Flush(room));
      }
      assert ServeAll(cr, cl, one.link, turns[1..]).exit == AllDelivered;
    }
  }
}
