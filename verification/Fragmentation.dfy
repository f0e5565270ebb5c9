/**
 * Cutting a byte stream into `feed` calls does not change what comes out. When every call returns, one call
 * with the whole stream returns the same; and every cutting returns exactly when no chunk-size line is long.
 */
module Fragmentation {
  import opened Wrappers
  import opened Bytes
  import opened RequestHead
  import opened StreamRewriter

  /** The parser with more bytes queued. */
  function With(s: State, data: bytes): State {
    s.(pending := s.pending + data)
  }

  function Concat(chunks: seq<bytes>): bytes {
    if chunks == [] then [] else chunks[0] + Concat(chunks[1..])
  }

  /** Nothing the parser could do right now: the state every returning `feed` leaves. */
  predicate Settled(key: bytes, s: State)
    requires Valid(s)
  {
    s.pending == [] || Step(key, s) == Wait
  }

  // ---------------------------------------------------------------- more bytes behind a turn

  predicate Copying(s: State) {
    s.mode in {Fixed, ChunkData, Raw}
  }

  /** A turn that does not copy greedily is not affected by the bytes behind it. */
  lemma StepExtend(key: bytes, s: State, d: bytes)
    requires Valid(s) && s.pending != [] && Step(key, s).Emit?
    requires !Copying(s) || (s.mode != Raw && s.remaining <= |s.pending|)
    ensures Step(key, With(s, d)) == Emit(With(Step(key, s).next, d), Step(key, s).out)
  {
    match s.mode {
      case Head => HeadExtend(key, s, d);
      case ChunkSize => ChunkSizeExtend(s, d);
      case ChunkTrailers => TrailerExtend(s, d);
      case ChunkCrlf =>
        assert (s.pending + d)[..2] == s.pending[..2];
        assert (s.pending + d)[2..] == s.pending[2..] + d;
      case Fixed => SliceAppend(s.pending, d, s.remaining);
      case ChunkData => SliceAppend(s.pending, d, s.remaining);
      case Raw =>
      case Closed =>
    }
  }

  lemma HeadReadWith(s: State, r: Result<Framed, HeadError>, d: bytes)
    requires r.Ok?
    ensures HeadRead(With(s, d), r) == Emit(With(HeadRead(s, r).next, d), HeadRead(s, r).out)
  {
  }

  lemma HeadExtend(key: bytes, s: State, d: bytes)
    requires HeadStep(key, s).Emit?
    ensures HeadStep(key, With(s, d)) == Emit(With(HeadStep(key, s).next, d), HeadStep(key, s).out)
  {
    var marker := Find(s.pending, CRLFCRLF);
    var head, rest := s.pending[..marker + 4], s.(pending := s.pending[marker + 4..]);
    FindExtend(s.pending, d, CRLFCRLF);
    SliceAppend(s.pending, d, marker + 4);
    HeadStepAt(key, s, marker, head);
    HeadStepAt(key, With(s, d), marker, head);
    HeadReadWith(rest, Rewrite(head, key), d);
  }

  /** Where a turn that takes a chunk-size line ends. */
  function AfterSize(s: State, marker: nat, size: nat): State
    requires marker + 2 <= |s.pending|
  {
    var next := s.(pending := s.pending[marker + 2..], remaining := size);
    if size == 0 then next.(mode := ChunkTrailers, trailerBytes := 0) else next.(mode := ChunkData)
  }

  lemma SizeTaken(s: State, marker: nat, size: Option<nat>)
    requires Find(s.pending, CRLF) == marker && size == SizeOf(s.pending[..marker])
    ensures ChunkSizeStep(s).Emit? <==> size.Some?
    ensures size.Some? ==> ChunkSizeStep(s) == Emit(AfterSize(s, marker, size.value), s.pending[..marker + 2])
  {
  }

  lemma ChunkSizeExtend(s: State, d: bytes)
    requires ChunkSizeStep(s).Emit?
    ensures ChunkSizeStep(With(s, d)) == Emit(With(ChunkSizeStep(s).next, d), ChunkSizeStep(s).out)
  {
    var marker := Find(s.pending, CRLF);
    FindExtend(s.pending, d, CRLF);
    SliceAppend(s.pending, d, marker);
    SliceAppend(s.pending, d, marker + 2);
    var size := SizeOf(s.pending[..marker]);
    SizeTaken(s, marker, size);
    SizeTaken(With(s, d), marker, size);
  }

  /** Where a turn that takes a trailer line ends. */
  function AfterTrailer(s: State, marker: nat): State
    requires marker + 2 <= |s.pending|
  {
    if marker == 0 then s.(pending := s.pending[2..], mode := Finished(s.closeAfter), trailerBytes := 0)
    else s.(pending := s.pending[marker + 2..], trailerBytes := s.trailerBytes + marker + 2)
  }

  predicate TakesTrailer(s: State, marker: nat)
    requires marker + 2 <= |s.pending|
  {
    s.trailerBytes + marker + 2 <= MAX_HEADER_BYTES && (marker == 0 || ValidTrailer(s.pending[..marker]))
  }

  lemma TrailerTaken(s: State, marker: nat)
    requires Find(s.pending, CRLF) == marker
    ensures TrailerStep(s).Emit? <==> TakesTrailer(s, marker)
    ensures TakesTrailer(s, marker) ==> TrailerStep(s) == Emit(AfterTrailer(s, marker), s.pending[..marker + 2])
  {
    assert s.pending[marker..marker + 2] == CRLF;
    assert marker == 0 ==> s.pending[..2] == s.pending[0..2];
  }

  lemma TrailerExtend(s: State, d: bytes)
    requires TrailerStep(s).Emit?
    ensures TrailerStep(With(s, d)) == Emit(With(TrailerStep(s).next, d), TrailerStep(s).out)
  {
    var marker := Find(s.pending, CRLF);
    FindExtend(s.pending, d, CRLF);
    SliceAppend(s.pending, d, marker);
    SliceAppend(s.pending, d, marker + 2);
    TrailerTaken(s, marker);
    SameTrailer(s, With(s, d), marker);
    AfterTrailerWith(s, d, marker);
  }

  /** Two states with the same trailer line in front take it alike. */
  lemma SameTrailer(s: State, t: State, marker: nat)
    requires Find(s.pending, CRLF) == marker == Find(t.pending, CRLF) && TrailerStep(s).Emit?
    requires t.trailerBytes == s.trailerBytes
    requires t.pending[..marker] == s.pending[..marker] && t.pending[..marker + 2] == s.pending[..marker + 2]
    ensures TrailerStep(t) == Emit(AfterTrailer(t, marker), TrailerStep(s).out)
  {
    TrailerTaken(s, marker);
    TrailerTaken(t, marker);
  }

  lemma AfterTrailerWith(s: State, d: bytes, marker: nat)
    requires marker + 2 <= |s.pending|
    ensures AfterTrailer(With(s, d), marker) == With(AfterTrailer(s, marker), d)
  {
    SliceAppend(s.pending, d, marker + 2);
  }

  /** A copying turn that ran out of bytes is continued by the next one as if it had not stopped. */
  lemma CopyContinues(key: bytes, s: State, d: bytes)
    requires Valid(s) && s.pending != [] && d != [] && Copying(s)
    requires s.mode == Raw || s.remaining > |s.pending|
    ensures Step(key, s).Emit? && Step(key, s).next.pending == [] && Valid(Step(key, s).next)
    ensures var n := With(Step(key, s).next, d);
            && n.pending != [] && Step(key, n).Emit?
            && Step(key, With(s, d)) == Emit(Step(key, n).next, Step(key, s).out + Step(key, n).out)
  {
    var n := With(Step(key, s).next, d);
    assert n.pending == d by { assert [] + d == d; }
    if s.mode != Raw {
      CopyTwice(s, d, if s.mode == Fixed then Finished(s.closeAfter) else ChunkCrlf);
    }
  }

  lemma CopyTwice(s: State, d: bytes, finished: Mode)
    requires s.remaining > |s.pending|
    ensures var n := State(d, s.mode, s.remaining - |s.pending|, s.trailerBytes, s.closeAfter);
            && CopyStep(s, finished) == Emit(n.(pending := []), s.pending)
            && CopyStep(With(s, d), finished) == Emit(CopyStep(n, finished).next, s.pending + CopyStep(n, finished).out)
  {
    var p := s.pending;
    var take := Min(s.remaining - |p|, |d|);
    assert Min(s.remaining, |p + d|) == |p| + take;
    assert (p + d)[..|p| + take] == p + d[..take];
    assert (p + d)[|p| + take..] == d[take..];
    assert p[..|p|] == p && p[|p|..] == [];
  }

  lemma RunAfterCopy(key: bytes, s: State, d: bytes, next: State, out: bytes)
    requires Valid(s) && s.pending != [] && d != [] && Copying(s) && (s.mode == Raw || s.remaining > |s.pending|)
    requires Step(key, s) == Emit(next, out) && Valid(next)
    ensures Run(key, With(s, d)) == Prepend(out, Run(key, With(next, d)))
  {
    CopyContinues(key, s, d);
    var n := With(next, d);
    var last, more := Step(key, n).next, Step(key, n).out;
    RunUnfolds(key, n, last, more);
    RunUnfolds(key, With(s, d), last, out + more);
    PrependTwice(out, more, Run(key, last));
  }

  /** Running after one turn with more bytes behind is running with those bytes from the start. */
  lemma RunAfterStep(key: bytes, s: State, d: bytes)
    requires Valid(s) && s.pending != [] && Step(key, s).Emit?
    ensures Valid(Step(key, s).next)
    ensures Run(key, With(s, d)) == Prepend(Step(key, s).out, Run(key, With(Step(key, s).next, d)))
  {
    StepProgress(key, s);
    var next, out := Step(key, s).next, Step(key, s).out;
    if !Copying(s) || (s.mode != Raw && s.remaining <= |s.pending|) {
      StepExtend(key, s, d);
      RunUnfolds(key, With(s, d), With(next, d), out);
    } else if d == [] {
      WithNothing(s);
      WithNothing(next);
      RunUnfolds(key, s, next, out);
    } else {
      RunAfterCopy(key, s, d, next, out);
    }
  }

  lemma WithNothing(s: State)
    ensures With(s, []) == s
  {
    assert s.pending + [] == s.pending;
  }

  lemma RunUnfolds(key: bytes, s: State, next: State, out: bytes)
    requires Valid(s) && s.pending != [] && Step(key, s) == Emit(next, out)
    ensures Valid(next) && Run(key, s) == Prepend(out, Run(key, next))
  {
    StepProgress(key, s);
  }

  // ---------------------------------------------------------------- refinement: many feeds are one

  lemma {:induction false} RunSplit(key: bytes, s: State, d: bytes)
    requires Valid(s) && Run(key, s).Done?
    ensures Run(key, With(s, d)) == Prepend(Run(key, s).out, Run(key, With(Run(key, s).state, d)))
    decreases |s.pending|
  {
    if s.pending == [] || Step(key, s) == Wait {
      PrependNothing(Run(key, With(s, d)));
    } else {
      StepProgress(key, s);
      var next, out := Step(key, s).next, Step(key, s).out;
      RunSplit(key, next, d);
      RunAfterStep(key, s, d);
      PrependTwice(out, Run(key, next).out, Run(key, With(Run(key, next).state, d)));
    }
  }

  lemma PrependNothing(outcome: Outcome)
    ensures Prepend([], outcome) == outcome
  {
    if outcome.Done? {
      assert [] + outcome.out == outcome.out;
    }
  }

  lemma {:induction false} RunSettles(key: bytes, s: State)
    requires Valid(s) && Run(key, s).Done?
    ensures Settled(key, Run(key, s).state)
    decreases |s.pending|
  {
    if s.pending != [] && Step(key, s) != Wait {
      StepProgress(key, s);
      RunSettles(key, Step(key, s).next);
    }
  }

  /** Two feeds are one: the second may return or raise, and the single feed does the same. */
  lemma FeedTwice(key: bytes, s: State, a: bytes, b: bytes)
    requires Valid(s) && FeedOnce(key, s, a).Done?
    ensures FeedOnce(key, s, a + b)
         == Prepend(FeedOnce(key, s, a).out, FeedOnce(key, FeedOnce(key, s, a).state, b))
  {
    RunSplit(key, With(s, a), b);
    WithTwice(s, a, b);
  }

  lemma WithTwice(s: State, a: bytes, b: bytes)
    ensures With(With(s, a), b) == With(s, a + b)
  {
    assert s.pending + a + b == s.pending + (a + b);
  }

  /**
   * Fragmentation refinement. If every call of a fragmentation returns, feeding the whole stream at once
   * returns too, with the concatenated output and the same final state.
   */
  lemma {:induction false} FragmentsAreOneFeed(key: bytes, s: State, chunks: seq<bytes>)
    requires Valid(s) && Settled(key, s) && FeedAll(key, s, chunks).Done?
    ensures FeedOnce(key, s, Concat(chunks)) == FeedAll(key, s, chunks)
    decreases |chunks|
  {
    if chunks == [] {
      assert s.pending + [] == s.pending;
    } else {
      var first := FeedOnce(key, s, chunks[0]);
      RunSettles(key, With(s, chunks[0]));
      FragmentsAreOneFeed(key, first.state, chunks[1..]);
      FeedTwice(key, s, chunks[0], Concat(chunks[1..]));
    }
  }

  // ---------------------------------------------------------------- completeness: which cuttings return

  /** Every chunk-size line the run consumes is shorter than the limit, CRLF not counted. */
  predicate ShortLines(key: bytes, s: State)
    requires Valid(s)
    decreases |s.pending|
  {
    if s.pending == [] || !Step(key, s).Emit? then true
    else
      StepProgress(key, s);
      ShortTurn(s) && ShortLines(key, Step(key, s).next)
  }

  /** Whether the turn about to be taken, if it takes a chunk-size line, takes a short one. */
  predicate ShortTurn(s: State) {
    s.mode == ChunkSize ==> Find(s.pending, CRLF) < MAX_CHUNK_LINE_BYTES
  }

  /** The run from `s` emits `out` and goes on from `next`; `short` says whether it takes only short lines till then. */
  predicate Passes(key: bytes, s: State, out: bytes, next: State, short: bool) {
    && Valid(s) && Valid(next)
    && Run(key, s) == Prepend(out, Run(key, next))
    && (ShortLines(key, s) <==> short && ShortLines(key, next))
  }

  lemma PassesStep(key: bytes, s: State, out: bytes, next: State, short: bool)
    requires Valid(s) && s.pending != [] && Step(key, s) == Emit(next, out) && short == ShortTurn(s)
    ensures Passes(key, s, out, next, short)
  {
    RunUnfolds(key, s, next, out);
  }

  lemma PassesNothing(key: bytes, s: State)
    requires Valid(s)
    ensures Passes(key, s, [], s, true)
  {
    PrependNothing(Run(key, s));
  }

  lemma PassesOn(key: bytes, s: State, out: bytes, mid: State, short: bool, more: bytes, next: State, shortToo: bool)
    requires Passes(key, s, out, mid, short) && Passes(key, mid, more, next, shortToo)
    ensures Passes(key, s, out + more, next, short && shortToo)
  {
    PrependTwice(out, more, Run(key, next));
  }

  /** With more bytes behind it, a turn that raised still raises, unless it was waiting for a long line's end. */
  lemma RaiseExtend(key: bytes, s: State, d: bytes)
    requires Valid(s) && s.pending != [] && Step(key, s).Raise?
    ensures Step(key, With(s, d)).Raise? || !ShortTurn(With(s, d))
  {
    match s.mode {
      case Head => HeadRaise(key, s, d);
      case ChunkSize => SizeRaise(s, d);
      case ChunkTrailers => TrailerRaise(s, d);
      case ChunkCrlf => assert (s.pending + d)[..2] == s.pending[..2];
      case _ =>
    }
  }

  lemma HeadRaise(key: bytes, s: State, d: bytes)
    requires HeadStep(key, s).Raise?
    ensures HeadStep(key, With(s, d)).Raise?
  {
    var marker := Find(s.pending, CRLFCRLF);
    FindExtend(s.pending, d, CRLFCRLF);
    if marker >= 0 {
      SliceAppend(s.pending, d, marker + 4);
      HeadStepAt(key, s, marker, s.pending[..marker + 4]);
      HeadStepAt(key, With(s, d), marker, s.pending[..marker + 4]);
    }
  }

  lemma SizeRaise(s: State, d: bytes)
    requires ChunkSizeStep(s).Raise?
    ensures ChunkSizeStep(With(s, d)).Raise? || Find(With(s, d).pending, CRLF) >= MAX_CHUNK_LINE_BYTES
  {
    var marker := Find(s.pending, CRLF);
    FindExtend(s.pending, d, CRLF);
    if marker >= 0 {
      SliceAppend(s.pending, d, marker);
    }
  }

  lemma TrailerRaise(s: State, d: bytes)
    requires TrailerStep(s).Raise?
    ensures TrailerStep(With(s, d)).Raise?
  {
    var marker := Find(s.pending, CRLF);
    FindExtend(s.pending, d, CRLF);
    if marker >= 0 {
      SliceAppend(s.pending, d, marker);
    }
  }

  /** Short lines stay short when some of the turns have already been taken. */
  lemma ShortAfterStep(key: bytes, s: State, d: bytes)
    requires Valid(s) && s.pending != [] && Step(key, s).Emit? && ShortLines(key, With(s, d))
    ensures Valid(Step(key, s).next) && ShortLines(key, With(Step(key, s).next, d))
  {
    StepProgress(key, s);
    var next := Step(key, s).next;
    if d == [] {
      assert With(s, d) == s && With(next, d) == next;
      ShortUnfolds(key, s, next, Step(key, s).out);
    } else if !Copying(s) || (s.mode != Raw && s.remaining <= |s.pending|) {
      StepExtend(key, s, d);
      ShortUnfolds(key, With(s, d), With(next, d), Step(key, s).out);
    } else {
      ShortAfterCopy(key, s, d, next);
    }
  }

  lemma ShortAfterCopy(key: bytes, s: State, d: bytes, next: State)
    requires Valid(s) && s.pending != [] && d != [] && Copying(s) && (s.mode == Raw || s.remaining > |s.pending|)
    requires Step(key, s).Emit? && next == Step(key, s).next && Valid(next)
    ensures ShortLines(key, With(s, d)) ==> ShortLines(key, With(next, d))
  {
    CopyContinues(key, s, d);
    var n := With(next, d);
    ShortUnfolds(key, n, Step(key, n).next, Step(key, n).out);
    ShortUnfolds(key, With(s, d), Step(key, n).next, Step(key, s).out + Step(key, n).out);
    assert n.mode != ChunkSize;
  }

  lemma ShortUnfolds(key: bytes, s: State, next: State, out: bytes)
    requires Valid(s) && s.pending != [] && Step(key, s) == Emit(next, out)
    ensures Valid(next)
    ensures ShortLines(key, s)
       <==> ShortTurn(s) && ShortLines(key, next)
  {
    StepProgress(key, s);
  }

  /** A prefix of a stream that returns, returns, provided the chunk-size lines are short. */
  lemma {:induction false} PrefixReturns(key: bytes, s: State, d: bytes)
    requires Valid(s) && Run(key, With(s, d)).Done? && ShortLines(key, With(s, d))
    ensures Run(key, s).Done? && ShortLines(key, With(Run(key, s).state, d))
    decreases |s.pending|
  {
    if s.pending != [] && Step(key, s) != Wait {
      if Step(key, s).Raise? {
        RaiseExtend(key, s, d);
        assert false;
      }
      StepProgress(key, s);
      RunAfterStep(key, s, d);
      ShortAfterStep(key, s, d);
      PrefixReturns(key, Step(key, s).next, d);
    }
  }

  lemma {:induction false} ShortLinesReturn(key: bytes, s: State, chunks: seq<bytes>)
    requires Valid(s) && FeedOnce(key, s, Concat(chunks)).Done? && ShortLines(key, With(s, Concat(chunks)))
    ensures FeedAll(key, s, chunks).Done?
    decreases |chunks|
  {
    if chunks != [] {
      var rest := Concat(chunks[1..]);
      WithTwice(s, chunks[0], rest);
      PrefixReturns(key, With(s, chunks[0]), rest);
      RunSplit(key, With(s, chunks[0]), rest);
      ShortLinesReturn(key, FeedOnce(key, s, chunks[0]).state, chunks[1..]);
    }
  }

  /** The parser with only the first `n` pending bytes. */
  function Cut(s: State, n: nat): State
    requires n <= |s.pending|
  {
    s.(pending := s.pending[..n])
  }

  lemma FindPrefix(s: bytes, pattern: bytes, n: nat)
    requires pattern != [] && 0 <= Find(s, pattern) && Find(s, pattern) + |pattern| <= n <= |s|
    ensures Find(s[..n], pattern) == Find(s, pattern)
  {
    assert s == s[..n] + s[n..];
    FindExtend(s[..n], s[n..], pattern);
  }

  lemma SliceTwice(s: bytes, a: nat, n: nat)
    requires a <= n <= |s|
    ensures s[..n][..a] == s[..a] && s[..n][a..] == s[a..][..n - a]
  {
  }

  /** The move made on the first `n` bytes is the move made on all of them, with the rest cut off. */
  predicate SameMove(s: State, n: nat, move: Move, cut: Move) {
    && move.Emit?
    && 0 < Consumed(s, move.next) <= n <= |s.pending|
    && n - Consumed(s, move.next) <= |move.next.pending|
    && cut == Emit(Cut(move.next, n - Consumed(s, move.next)), move.out)
  }

  /** A turn looks only at the bytes it consumes. */
  lemma StepPrefix(key: bytes, s: State, n: nat)
    requires Valid(s) && s.pending != [] && Step(key, s).Emit?
    requires Consumed(s, Step(key, s).next) <= n <= |s.pending|
    ensures SameMove(s, n, Step(key, s), Step(key, Cut(s, n)))
  {
    StepProgress(key, s);
    if n == |s.pending| {
      CutNothing(s);
      CutNothing(Step(key, s).next);
      return;
    }
    match s.mode {
      case Head => HeadPrefix(key, s, n);
      case ChunkSize => ChunkSizePrefix(s, n);
      case ChunkTrailers => TrailerPrefix(s, n);
      case ChunkCrlf => SliceTwice(s.pending, 2, n);
      case Fixed => CopyPrefix(s, Finished(s.closeAfter), n);
      case ChunkData => CopyPrefix(s, ChunkCrlf, n);
      case Raw =>
      case Closed =>
    }
  }

  lemma CutNothing(s: State)
    ensures Cut(s, |s.pending|) == s
  {
    assert s.pending[..|s.pending|] == s.pending;
  }

  lemma CopyPrefix(s: State, finished: Mode, n: nat)
    requires 0 < s.remaining && Consumed(s, CopyStep(s, finished).next) <= n < |s.pending|
    ensures SameMove(s, n, CopyStep(s, finished), CopyStep(Cut(s, n), finished))
  {
    assert Consumed(s, CopyStep(s, finished).next) == s.remaining;
    SliceTwice(s.pending, s.remaining, n);
  }

  lemma HeadPrefix(key: bytes, s: State, n: nat)
    requires HeadStep(key, s).Emit? && Consumed(s, HeadStep(key, s).next) <= n <= |s.pending|
    ensures SameMove(s, n, HeadStep(key, s), HeadStep(key, Cut(s, n)))
  {
    HeadEmits(key, s);
    var marker := Find(s.pending, CRLFCRLF);
    var end := marker + 4;
    var head := s.pending[..end];
    var r := Rewrite(head, key);
    HeadStepAt(key, s, marker, head);
    HeadReadMoves(s, r, end);
    FindPrefix(s.pending, CRLFCRLF, n);
    SliceTwice(s.pending, end, n);
    HeadStepAt(key, Cut(s, n), marker, head);
    HeadMovesAlike(s, r, end, n);
  }

  lemma HeadEmits(key: bytes, s: State)
    requires HeadStep(key, s).Emit?
    ensures var marker := Find(s.pending, CRLFCRLF);
            marker >= 0 && marker + 4 <= MAX_HEADER_BYTES && Rewrite(s.pending[..marker + 4], key).Ok?
  {
  }

  lemma HeadReadMoves(s: State, r: Result<Framed, HeadError>, end: nat)
    requires r.Ok? && end <= |s.pending|
    ensures var move := HeadRead(s.(pending := s.pending[end..]), r);
            move.Emit? && Consumed(s, move.next) == end
  {
  }

  lemma HeadMovesAlike(s: State, r: Result<Framed, HeadError>, end: nat, n: nat)
    requires r.Ok? && 0 < end <= n <= |s.pending|
    ensures var rest := s.(pending := s.pending[end..]);
            SameMove(s, n, HeadRead(rest, r), HeadRead(Cut(rest, n - end), r))
  {
    HeadReadCut(s.(pending := s.pending[end..]), r, n - end);
  }

  lemma HeadReadCut(s: State, r: Result<Framed, HeadError>, n: nat)
    requires n <= |s.pending| && r.Ok?
    ensures HeadRead(s, r).Emit? && HeadRead(s, r).next.pending == s.pending
    ensures HeadRead(Cut(s, n), r) == Emit(Cut(HeadRead(s, r).next, n), HeadRead(s, r).out)
  {
  }

  lemma ChunkSizePrefix(s: State, n: nat)
    requires ChunkSizeStep(s).Emit? && Consumed(s, ChunkSizeStep(s).next) <= n <= |s.pending|
    ensures SameMove(s, n, ChunkSizeStep(s), ChunkSizeStep(Cut(s, n)))
  {
    var marker := Find(s.pending, CRLF);
    FindPrefix(s.pending, CRLF, n);
    SliceTwice(s.pending, marker, n);
    SliceTwice(s.pending, marker + 2, n);
    var size := SizeOf(s.pending[..marker]);
    SizeTaken(s, marker, size);
    SizeTaken(Cut(s, n), marker, size);
    AfterSizeCut(s, marker, size.value, n);
    var next := AfterSize(s, marker, size.value);
    assert ChunkSizeStep(s).next == next && Consumed(s, next) == marker + 2;
  }

  lemma AfterSizeCut(s: State, marker: nat, size: nat, n: nat)
    requires marker + 2 <= n <= |s.pending|
    ensures AfterSize(Cut(s, n), marker, size) == Cut(AfterSize(s, marker, size), n - (marker + 2))
  {
    SliceTwice(s.pending, marker + 2, n);
  }

  lemma TrailerPrefix(s: State, n: nat)
    requires TrailerStep(s).Emit? && Consumed(s, TrailerStep(s).next) <= n <= |s.pending|
    ensures SameMove(s, n, TrailerStep(s), TrailerStep(Cut(s, n)))
  {
    var marker := Find(s.pending, CRLF);
    FindPrefix(s.pending, CRLF, n);
    SliceTwice(s.pending, marker, n);
    SliceTwice(s.pending, marker + 2, n);
    TrailerTaken(s, marker);
    SameTrailer(s, Cut(s, n), marker);
    AfterTrailerCut(s, marker, n);
  }

  lemma AfterTrailerCut(s: State, marker: nat, n: nat)
    requires marker + 2 <= n <= |s.pending|
    ensures AfterTrailer(Cut(s, n), marker) == Cut(AfterTrailer(s, marker), n - (marker + 2))
    ensures Consumed(s, AfterTrailer(s, marker)) == marker + 2
  {
    SliceTwice(s.pending, marker + 2, n);
  }

  /** A run that returns would have done the same, and left nothing, without the bytes it left. */
  lemma {:induction false} RunConsumes(key: bytes, s: State, n: nat)
    requires Valid(s) && Run(key, s).Done? && |Run(key, s).state.pending| + n == |s.pending|
    ensures Run(key, Cut(s, n)) == Done(Cut(Run(key, s).state, 0), Run(key, s).out)
    ensures Run(key, s).state.pending == s.pending[n..]
    decreases |s.pending|
  {
    if s.pending == [] || Step(key, s) == Wait {
      assert n == 0;
    } else {
      StepProgress(key, s);
      var next, out := Step(key, s).next, Step(key, s).out;
      var taken := Consumed(s, next);
      RunUnfolds(key, s, next, out);
      LeavesASuffix(key, next);
      RunConsumes(key, next, n - taken);
      StepPrefix(key, s, n);
      RunUnfolds(key, Cut(s, n), Cut(next, n - taken), out);
      assert next.pending[n - taken..] == s.pending[n..];
    }
  }

  lemma {:induction false} LeavesASuffix(key: bytes, s: State)
    requires Valid(s) && Run(key, s).Done?
    ensures |Run(key, s).state.pending| <= |s.pending|
    decreases |s.pending|
  {
    if s.pending != [] && Step(key, s) != Wait {
      StepProgress(key, s);
      LeavesASuffix(key, Step(key, s).next);
    }
  }

  /** A long chunk-size line can be cut just before its last byte, and then the parser gives up on it. */
  lemma {:induction false} LongLineCut(key: bytes, s: State) returns (n: nat)
    requires Valid(s) && Run(key, s).Done? && !ShortLines(key, s)
    ensures n <= |s.pending| && Run(key, Cut(s, n)).Failed?
    decreases |s.pending|
  {
    StepProgress(key, s);
    if s.mode == ChunkSize && Find(s.pending, CRLF) >= MAX_CHUNK_LINE_BYTES {
      n := Find(s.pending, CRLF) + 1;
      LongLineFails(key, s, n);
    } else {
      var next := Step(key, s).next;
      var rest := LongLineCut(key, next);
      NothingReturns(key, next);
      n := Consumed(s, next) + rest;
      FailsAfterStep(key, s, n);
    }
  }

  lemma LongLineFails(key: bytes, s: State, n: nat)
    requires s.mode == ChunkSize && n == Find(s.pending, CRLF) + 1 > MAX_CHUNK_LINE_BYTES
    ensures n <= |s.pending| && Run(key, Cut(s, n)).Failed?
  {
    NoMarkerBefore(s.pending, CRLF, n);
  }

  lemma NothingReturns(key: bytes, s: State)
    requires Valid(s)
    ensures Run(key, Cut(s, 0)).Done?
  {
    assert Cut(s, 0).pending == [];
  }

  lemma FailsAfterStep(key: bytes, s: State, n: nat)
    requires Valid(s) && s.pending != [] && Step(key, s).Emit?
    requires Consumed(s, Step(key, s).next) <= n <= |s.pending|
    requires n - Consumed(s, Step(key, s).next) <= |Step(key, s).next.pending|
    requires Valid(Step(key, s).next) && Run(key, Cut(Step(key, s).next, n - Consumed(s, Step(key, s).next))).Failed?
    ensures Run(key, Cut(s, n)).Failed?
  {
    StepPrefix(key, s, n);
  }

  lemma NoMarkerBefore(s: bytes, pattern: bytes, n: nat)
    requires pattern != [] && n <= |s| && 0 <= Find(s, pattern) && n < Find(s, pattern) + |pattern|
    ensures Find(s[..n], pattern) < 0
  {
    assert s == s[..n] + s[n..];
    FindExtend(s[..n], s[n..], pattern);
    if Find(s[..n], pattern) >= 0 {
      assert false;
    }
  }

  /** A parser waiting for more waits with fewer bytes too. */
  lemma SettledPrefix(key: bytes, s: State, n: nat)
    requires Valid(s) && Settled(key, s) && n <= |s.pending|
    ensures Run(key, Cut(s, n)).Done?
  {
    var p := s.pending;
    if 0 < n {
      assert p == p[..n] + p[n..];
      match s.mode {
        case Head => FindExtend(p[..n], p[n..], CRLFCRLF);
        case ChunkSize => FindExtend(p[..n], p[n..], CRLF);
        case ChunkTrailers => FindExtend(p[..n], p[n..], CRLF);
        case _ =>
      }
    }
  }

  /**
   * Fragmentation completeness, exactly. Take a stream that one call accepts. Every way of cutting it into
   * calls is accepted if and only if each of its chunk-size lines is shorter than the chunk-line limit; the
   * head and trailer limits never depend on the cuts.
   */
  lemma EveryFragmentationReturns(key: bytes, s: State, data: bytes)
    requires Valid(s) && Settled(key, s) && FeedOnce(key, s, data).Done?
    ensures (forall chunks :: Concat(chunks) == data ==> FeedAll(key, s, chunks).Done?)
       <==> ShortLines(key, With(s, data))
  {
    if ShortLines(key, With(s, data)) {
      forall chunks | Concat(chunks) == data ensures FeedAll(key, s, chunks).Done? {
        ShortLinesReturn(key, s, chunks);
      }
    } else {
      var chunks := RejectingCut(key, s, data);
      assert Concat(chunks) == data && !FeedAll(key, s, chunks).Done?;
    }
  }

  lemma RejectingCut(key: bytes, s: State, data: bytes) returns (chunks: seq<bytes>)
    requires Valid(s) && Settled(key, s) && FeedOnce(key, s, data).Done? && !ShortLines(key, With(s, data))
    ensures Concat(chunks) == data && FeedAll(key, s, chunks).Failed?
  {
    var n := LongLineCut(key, With(s, data));
    var p := s.pending;
    if n <= |p| {
      assert (p + data)[..n] == p[..n];
      SettledPrefix(key, s, n);
      assert false;
    }
    chunks := [data[..n - |p|], data[n - |p|..]];
    ConcatTwo(data, n - |p|);
    SliceAcross(p, data, n);
    assert With(s, chunks[0]) == Cut(With(s, data), n);
  }

  lemma ConcatTwo(data: bytes, k: nat)
    requires k <= |data|
    ensures Concat([data[..k], data[k..]]) == data
  {
    var tail := [data[k..]];
    assert [data[..k], data[k..]][1..] == tail && tail[1..] == [];
    assert Concat(tail) == data[k..] + [] == data[k..];
    assert data == data[..k] + data[k..];
  }

  lemma SliceAcross(a: bytes, b: bytes, n: nat)
    requires |a| <= n <= |a + b|
    ensures (a + b)[..n] == a + b[..n - |a|]
  {
  }
}
