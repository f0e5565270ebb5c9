/**
 * That the tailer gets on: where it begins, how far each call takes it, and that it catches up with a file; and
 * what the lines it returns are, said by splitting the text at its newlines.
 */
module LogTailProgress {
  import opened Bytes
  import opened LogTail
  import opened LogTailLaws

  // ---------------------------------------------------------------- one call

  /** Where a call starts to read: near the end on the first, from the start after a truncation, else where it was. */
  function StartOf(t: Tail, length: nat): nat {
    if !t.initialized then Past(length, INITIAL_TAIL_BYTES)
    else if length < t.offset then 0
    else t.offset
  }

  /** What is over some amount. */
  function Past(n: nat, amount: nat): nat {
    if n <= amount then 0 else n - amount
  }

  function Smaller(a: nat, b: nat): nat { if a < b then a else b }

  lemma PositionedIs(t: Tail, length: nat)
    ensures Positioned(t, length).offset == StartOf(t, length) && Positioned(t, length).initialized
  {
  }

  lemma NothingToRead(t: Tail, length: nat, content: bytes, at: Tail)
    requires at == Positioned(t, length) && length <= at.offset
    ensures ReadOnce(t, Readable(length, content, false)) == Read(at, Lines([], !t.initialized))
  {
  }

  lemma SomethingToRead(t: Tail, length: nat, content: bytes, at: Tail, d: Digested)
    requires at == Positioned(t, length) && length > at.offset
    requires d == Digest(at, Fetched(content, at.offset), !t.initialized && at.offset > 0)
    ensures ReadOnce(t, Readable(length, content, false)) == Read(d.tail, Lines(d.lines, !t.initialized))
  {
  }

  lemma FetchedLength(content: bytes, offset: nat)
    requires offset <= |content|
    ensures |Fetched(content, offset)| == Smaller(|content| - offset, MAX_READ_BYTES)
  {
  }

  /** A call that finds a file opens it, and a read that succeeds takes the smaller of what is left and the limit. */
  lemma CallAdvances(t: Tail, length: nat, content: bytes)
    requires length <= |content|
    ensures var r := ReadOnce(t, Readable(length, content, false));
            var start := StartOf(t, length);
            && r.tail.initialized
            && r.tail.offset == (if length <= start then start else start + Smaller(|content| - start, MAX_READ_BYTES))
            && r.reading.Lines? && r.reading.initial == !t.initialized
  {
    var at := Positioned(t, length);
    PositionedIs(t, length);
    if length <= at.offset {
      NothingToRead(t, length, content, at);
    } else {
      var data, prefix := Fetched(content, at.offset), !t.initialized && at.offset > 0;
      var d := Digest(at, data, prefix);
      SomethingToRead(t, length, content, at, d);
      DigestMoves(at, data, prefix);
      FetchedLength(content, at.offset);
    }
  }

  /** A call whose read fails goes nowhere from there; one that cannot open the file changes nothing. */
  lemma FailureStays(t: Tail, length: nat, content: bytes)
    requires StartOf(t, length) < length
    ensures var r := ReadOnce(t, Readable(length, content, true));
            r.tail.initialized && r.tail.offset == StartOf(t, length) && r.reading == IoError
    ensures ReadOnce(t, CannotOpen) == Read(t, IoError)
    ensures ReadOnce(t, Missing) == Read(UNOPENED, Lines([], false))
  {
  }

  /** What is read is what stands at the offset, as much as fits. */
  lemma FetchedIs(content: bytes, offset: nat)
    requires offset <= |content|
    ensures Fetched(content, offset) == content[offset..offset + Smaller(|content| - offset, MAX_READ_BYTES)]
  {
  }

  // ---------------------------------------------------------------- catching up

  /** The same call, many times. */
  function Times(seen: Observation, n: nat): (r: seq<Observation>)
    ensures |r| == n
  {
    if n == 0 then [] else Times(seen, n - 1) + [seen]
  }

  lemma {:induction false} AppendTimes(calls: seq<Observation>, seen: Observation, n: nat)
    requires n > 0
    ensures calls + Times(seen, n) == calls + Times(seen, n - 1) + [seen]
  {
  }

  /** How far so many reads get, each of them as far as one may. */
  function After(offset: nat, size: nat, n: nat): nat {
    if n == 0 then offset else Smaller(size, After(offset, size, n - 1) + MAX_READ_BYTES)
  }

  lemma {:induction false} AfterIs(offset: nat, size: nat, n: nat)
    requires offset <= size
    ensures After(offset, size, n) == Smaller(size, offset + n * MAX_READ_BYTES)
  {
    if n > 0 {
      AfterIs(offset, size, n - 1);
      assert n * MAX_READ_BYTES == (n - 1) * MAX_READ_BYTES + MAX_READ_BYTES;
    }
  }

  predicate At(t: Tail, offset: nat) {
    t.initialized && t.offset == offset
  }

  /** On a file that does not change any more, each call takes the tailer on by as much as one read may. */
  lemma {:induction false} GetsOn(calls: seq<Observation>, file: bytes, offset: nat, n: nat)
    requires At(Session(calls).0, offset) && offset <= |file|
    ensures At(Session(calls + Times(Readable(|file|, file, false), n)).0, After(offset, |file|, n))
  {
    var seen := Readable(|file|, file, false);
    if n == 0 {
      assert calls + [] == calls;
    } else {
      GetsOn(calls, file, offset, n - 1);
      AfterIs(offset, |file|, n - 1);
      AppendTimes(calls, seen, n);
      OneMoreCall(calls + Times(seen, n - 1), file, After(offset, |file|, n - 1));
    }
  }

  lemma OneMoreCall(calls: seq<Observation>, file: bytes, offset: nat)
    requires At(Session(calls).0, offset) && offset <= |file|
    ensures At(Session(calls + [Readable(|file|, file, false)]).0, Smaller(|file|, offset + MAX_READ_BYTES))
  {
    SessionUnfolds(calls, Readable(|file|, file, false));
    CallAdvances(Session(calls).0, |file|, file);
  }

  lemma {:induction false} StillAppendOnly(file: bytes, calls: seq<Observation>, n: nat)
    requires AppendOnly(file, calls)
    ensures AppendOnly(file, calls + Times(Readable(|file|, file, false), n))
    ensures Reached(calls + Times(Readable(|file|, file, false), n)) <= |file|
  {
    var seen := Readable(|file|, file, false);
    if n == 0 {
      assert calls + [] == calls;
      SeenIsAStretch(file, calls);
    } else {
      StillAppendOnly(file, calls, n - 1);
      AppendTimes(calls, seen, n);
      var all := calls + Times(seen, n);
      assert all[..|all| - 1] == calls + Times(seen, n - 1) && all[|all| - 1] == seen;
    }
  }

  /** One call opens a file, wherever the session stands. */
  lemma Opens(calls: seq<Observation>, file: bytes)
    requires AppendOnly(file, calls)
    ensures var t := Session(calls + [Readable(|file|, file, false)]).0;
            t.initialized && t.offset <= |file|
  {
    SeenIsAStretch(file, calls);
    SessionUnfolds(calls, Readable(|file|, file, false));
    CallAdvances(Session(calls).0, |file|, file);
  }

  /**
   * Whatever happened before, on a file that has stopped growing enough calls bring the offset to its end; then
   * everything up to there has been read, and the lines returned are those of it.
   */
  lemma CatchesUp(calls: seq<Observation>, file: bytes, n: nat)
    requires AppendOnly(file, calls) && n * MAX_READ_BYTES >= |file|
    ensures var (t, h) := Session(calls + Times(Readable(|file|, file, false), n + 1));
            t.offset == |file| && h.Watching? && AllRefined(file, h)
  {
    var seen := Readable(|file|, file, false);
    var all := calls + Times(seen, n + 1);
    ReachesTheEnd(calls, file, n);
    StillAppendOnly(file, calls, n + 1);
    SeenIsAStretch(file, all);
    TailRefinesTheFile(file, all);
    WholeRest(file, Session(all).0, Session(all).1);
  }

  /** The lines returned are those of the file from its first kept offset to its end. */
  predicate AllRefined(file: bytes, h: History)
    requires h.Watching?
  {
    Begun(h) ==> FirstOffset(h) <= |file| && Refines(file[FirstOffset(h)..], FirstOffset(h), h.cuts, h.lines)
  }

  lemma WholeRest(file: bytes, t: Tail, h: History)
    requires h.Watching? && t.offset == |file|
    requires Begun(h) ==> FirstOffset(h) <= t.offset
                          && Refines(file[FirstOffset(h)..t.offset], FirstOffset(h), h.cuts, h.lines)
    ensures AllRefined(file, h)
  {
    if Begun(h) {
      assert file[FirstOffset(h)..t.offset] == file[FirstOffset(h)..];
    }
  }

  lemma ReachesTheEnd(calls: seq<Observation>, file: bytes, n: nat)
    requires AppendOnly(file, calls) && n * MAX_READ_BYTES >= |file|
    ensures At(Session(calls + Times(Readable(|file|, file, false), n + 1)).0, |file|)
  {
    var seen := Readable(|file|, file, false);
    Opens(calls, file);
    AppendFirst(calls, seen, n);
    var offset := Session(calls + [seen]).0.offset;
    GetsOn(calls + [seen], file, offset, n);
    AfterIs(offset, |file|, n);
  }

  lemma {:induction false} AppendFirst(calls: seq<Observation>, seen: Observation, n: nat)
    ensures calls + Times(seen, n + 1) == calls + [seen] + Times(seen, n)
  {
    if n > 0 {
      AppendFirst(calls, seen, n - 1);
      AppendTimes(calls, seen, n + 1);
      AppendTimes(calls + [seen], seen, n);
    } else {
      assert Times(seen, 1) == [] + [seen];
    }
  }

  // ---------------------------------------------------------------- where it begins

  /** A growing file is read from near the end it had when it was first seen. */
  predicate BegunAt(h: History, opening: Observation) {
    h.Watching? ==> opening.Readable? && h.base == Past(opening.length, INITIAL_TAIL_BYTES)
  }

  lemma {:induction false} BeginsNearTheEnd(file: bytes, calls: seq<Observation>)
    requires AppendOnly(file, calls)
    ensures BegunAt(Session(calls).1, Opening(calls))
  {
    if calls != [] {
      var earlier, seen := calls[..|calls| - 1], calls[|calls| - 1];
      BeginsNearTheEnd(file, earlier);
      SeenIsAStretch(file, earlier);
      assert calls == earlier + [seen];
      SessionUnfolds(earlier, seen);
      StillBegun(Session(earlier).0, Session(earlier).1, Opening(earlier), seen);
    }
  }

  lemma StillBegun(t: Tail, h: History, opening: Observation, seen: Observation)
    requires BegunAt(h, opening) && !seen.Missing? && (h.NotWatching? ==> !t.initialized)
    requires seen.Readable? && t.initialized ==> t.offset <= seen.length
    requires t.initialized ==> h.Watching?
    ensures BegunAt(Witnessed(h, t, seen), if seen.Readable? && StartsOver(t, seen) then seen else opening)
  {
    if seen.Readable? {
      var at, started := Positioned(t, seen.length), StartedOver(h, t, seen);
      PositionedIs(t, seen.length);
      if !(seen.length <= at.offset || seen.readFails) {
        ExtendedFields(started, Fetched(seen.content, at.offset), LinesOf(ReadOnce(t, seen).reading));
      }
    }
  }

  // ---------------------------------------------------------------- the lines, by splitting

  /** What is presented of the pieces of a text: those within the limit, without the carriage returns at their ends. */
  function Presented(pieces: seq<bytes>): seq<bytes> {
    if pieces == [] then []
    else
      PresentedLine(pieces[0]) + Presented(pieces[1..])
  }

  function PresentedLine(line: bytes): seq<bytes> {
    if |WithoutCr(line)| <= MAX_PENDING_BYTES then [TrimCrs(line)] else []
  }

  /** A line is trimmed of exactly the carriage returns at its end. */
  lemma {:induction false} TrimCrsIs(line: bytes) returns (crs: nat)
    ensures line == TrimCrs(line) + seq(crs, i => '\r')
    ensures TrimCrs(line) == [] || TrimCrs(line)[|TrimCrs(line)| - 1] != '\r'
  {
    if line != [] && line[|line| - 1] == '\r' {
      var fewer := TrimCrsIs(line[..|line| - 1]);
      crs := fewer + 1;
      assert line == line[..|line| - 1] + ['\r'];
      assert seq(crs, i => '\r') == seq(fewer, i => '\r') + ['\r'];
    } else {
      crs := 0;
    }
  }

  /** With no read in between, a line counts without one carriage return. */
  lemma ShownIs(line: bytes, newline: nat)
    ensures Shown(line, newline, {}) == PresentedLine(line)
  {
  }

  /**
   * The complete lines of a text are its pieces between newlines, the last one, which is not finished, left out.
   */
  lemma {:induction false} CompleteIsSplit(text: bytes, at: nat)
    ensures Complete([], text, at, {}) == Presented(CompletePieces(text))
    decreases |text|
  {
    var end := Find(text, ['\n']);
    if end < 0 {
      NoNewline(text);
      NothingComplete([], text, at);
      assert CompletePieces(text) == [];
    } else {
      CompleteIsSplit(text[end + 1..], at + end + 1);
      SplitStep(text, end, text[..end], text[end + 1..], at);
    }
  }

  lemma SplitStep(text: bytes, end: nat, line: bytes, rest: bytes, at: nat)
    requires Find(text, ['\n']) == end < |text| && line == text[..end] && rest == text[end + 1..]
    requires Complete([], rest, at + end + 1, {}) == Presented(CompletePieces(rest))
    ensures Complete([], text, at, {}) == Presented(CompletePieces(text))
  {
    NewlineThere(text, end);
    LineBeforeFind(text, ['\n']);
    OneLineMore(text, line, rest, at);
    FirstPiece(text, end, line, rest);
  }

  lemma OneLineMore(text: bytes, line: bytes, rest: bytes, at: nat)
    requires text == line + ['\n'] + rest && Find(line, ['\n']) < 0
    ensures Complete([], text, at, {})
         == PresentedLine(line) + Complete([], rest, at + |line| + 1, {})
  {
    NoNewline(line);
    CompleteFirst(text, line, rest, at, at + |line|, {});
    ShownIs(line, at + |line|);
  }

  /** The pieces of a text that a newline ends. */
  function CompletePieces(text: bytes): seq<bytes> {
    var pieces := Split(text, ['\n']);
    pieces[..|pieces| - 1]
  }

  lemma FirstPiece(text: bytes, end: nat, line: bytes, rest: bytes)
    requires Find(text, ['\n']) == end < |text| && line == text[..end] && rest == text[end + 1..]
    ensures Presented(CompletePieces(text)) == PresentedLine(line) + Presented(CompletePieces(rest))
  {
    SplitAt(text, end, line, rest);
    FirstPresented(line, Split(rest, ['\n']));
  }

  lemma SplitAt(text: bytes, end: nat, line: bytes, rest: bytes)
    requires Find(text, ['\n']) == end < |text| && line == text[..end] && rest == text[end + 1..]
    ensures Split(text, ['\n']) == [line] + Split(rest, ['\n'])
  {
  }

  lemma NoNewline(s: bytes)
    requires Find(s, ['\n']) < 0
    ensures '\n' !in s
  {
    forall i | 0 <= i < |s| ensures s[i] != '\n' {
      assert !OccursAt(s, ['\n'], i);
      assert s[i..i + 1] == [s[i]];
    }
  }

  lemma NewlineThere(text: bytes, end: nat)
    requires Find(text, ['\n']) == end
    ensures end < |text| && text == text[..end] + ['\n'] + text[end + 1..]
  {
    assert OccursAt(text, ['\n'], end);
    ByteThere(text, end);
  }

  lemma ByteThere(text: bytes, end: nat)
    requires OccursAt(text, ['\n'], end)
    ensures end < |text| && text == text[..end] + ['\n'] + text[end + 1..]
  {
    assert text[end..end + 1] == ['\n'];
  }

  lemma {:induction false} NothingComplete(line: bytes, text: bytes, at: nat)
    requires '\n' !in text
    ensures Complete(line, text, at, {}) == []
    decreases |text|
  {
    if text != [] {
      assert text[0] in text;
      NothingComplete(line + [text[0]], text[1..], at + 1);
    }
  }

  lemma FirstPresented(line: bytes, others: seq<bytes>)
    requires others != []
    ensures var pieces := [line] + others;
            Presented(pieces[..|pieces| - 1])
            == PresentedLine(line) + Presented(others[..|others| - 1])
  {
    var pieces := [line] + others;
    assert pieces[..|pieces| - 1] == [line] + others[..|others| - 1];
    assert ([line] + others[..|others| - 1])[1..] == others[..|others| - 1];
  }
}
