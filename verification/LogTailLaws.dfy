/**
 * What the log tailer returns over any schedule of calls, truncations, rotations and read errors,
 * stated against the bytes it has read since it last started over.
 */
module LogTailLaws {
  import opened Bytes
  import opened LogTail

  // ---------------------------------------------------------------- the lines of a text

  /**
   * A line is returned when it is short enough; one byte over is still short enough when that byte is
   * the carriage return of its line ending, unless a read stopped right before its newline, which stands
   * at offset `newline`.
   */
  predicate Wanted(line: bytes, newline: nat, cuts: set<nat>) {
    || |line| <= MAX_PENDING_BYTES
    || (OneOver(line) && newline !in cuts)
  }

  /** Lines whose fate depends on where reads stop. */
  predicate OneOver(line: bytes) {
    |line| == MAX_PENDING_BYTES + 1 && line[MAX_PENDING_BYTES] == '\r'
  }

  /** What a complete line contributes. */
  function Shown(line: bytes, newline: nat, cuts: set<nat>): seq<bytes> {
    if Wanted(line, newline, cuts) then [TrimCrs(line)] else []
  }

  lemma {:induction false} FirstIsFirst(s: bytes)
    ensures FirstNewline(s) < 0 ==> '\n' !in s
    ensures FirstNewline(s) >= 0 ==> '\n' !in s[..FirstNewline(s)]
  {
    if s != [] {
      FirstIsFirst(s[1..]);
      var rest := FirstNewline(s[1..]);
      assert s == [s[0]] + s[1..];
      if s[0] != '\n' && rest >= 0 {
        assert s[..rest + 1] == [s[0]] + s[1..][..rest];
      }
    }
  }

  lemma {:induction false} FirstOfConcat(a: bytes, b: bytes)
    ensures FirstNewline(a) >= 0 ==> FirstNewline(a + b) == FirstNewline(a)
    ensures FirstNewline(a) < 0 ==> FirstNewline(a + b) == if FirstNewline(b) < 0 then -1 else |a| + FirstNewline(b)
  {
    if a == [] {
      assert a + b == b;
    } else {
      assert (a + b)[1..] == a[1..] + b;
      FirstOfConcat(a[1..], b);
    }
  }

  lemma {:induction false} NoneAfterLast(s: bytes, i: nat)
    requires LastNewline(s) < i < |s|
    ensures s[i] != '\n'
  {
    if i < |s| - 1 {
      NoneAfterLast(s[..|s| - 1], i);
    }
  }

  lemma LastIsLast(s: bytes)
    ensures '\n' !in s[LastNewline(s) + 1..]
  {
    var after := LastNewline(s) + 1;
    forall i | after <= i < |s| ensures s[i] != '\n' {
      NoneAfterLast(s, i);
    }
  }

  lemma {:induction false} NewlineAt(text: bytes, end: nat)
    requires end < |text| && text[end] == '\n' && '\n' !in text[..end]
    ensures FirstNewline(text) == end
  {
    if end > 0 {
      assert text[0] == text[..end][0] && text[..end][0] in text[..end];
      assert text[1..][..end - 1] == text[..end][1..];
      NewlineAt(text[1..], end - 1);
    }
  }

  /**
   * The wanted lines a text completes, taken byte by byte: `line` is what the current line already
   * holds and `at` is the file offset of the next byte.
   */
  function Complete(line: bytes, text: bytes, at: nat, cuts: set<nat>): seq<bytes>
    decreases |text|
  {
    if text == [] then []
    else if text[0] == '\n' then Shown(line, at, cuts) + Complete([], text[1..], at + 1, cuts)
    else Complete(line + [text[0]], text[1..], at + 1, cuts)
  }

  /** The line a text leaves unfinished. */
  function Partial(line: bytes, text: bytes): (r: bytes)
    ensures |r| <= |line| + |text|
    decreases |text|
  {
    if text == [] then line
    else Partial(if text[0] == '\n' then [] else line + [text[0]], text[1..])
  }

  /** Appending text only adds lines, the first of which continues the unfinished one. */
  lemma {:induction false} CompleteExtends(line: bytes, text: bytes, more: bytes, at: nat, cuts: set<nat>)
    ensures Complete(line, text + more, at, cuts)
         == Complete(line, text, at, cuts) + Complete(Partial(line, text), more, at + |text|, cuts)
    ensures Partial(line, text + more) == Partial(Partial(line, text), more)
    decreases |text|
  {
    if text == [] {
      assert text + more == more;
    } else {
      assert (text + more)[1..] == text[1..] + more;
      CompleteExtends(if text[0] == '\n' then [] else line + [text[0]], text[1..], more, at + 1, cuts);
    }
  }

  lemma {:induction false} WithinLine(line: bytes, text: bytes, at: nat, cuts: set<nat>)
    requires '\n' !in text
    ensures Complete(line, text, at, cuts) == [] && Partial(line, text) == line + text
    decreases |text|
  {
    if text != [] {
      WithinLine(line + [text[0]], text[1..], at + 1, cuts);
      assert line + [text[0]] + text[1..] == line + text;
    }
  }

  /** A newline completes one line and leaves none begun. */
  lemma LineThenRest(line: bytes, more: bytes, rest: bytes, at: nat, cuts: set<nat>)
    requires '\n' !in more
    ensures Complete(line, more + ['\n'] + rest, at, cuts)
         == Shown(line + more, at + |more|, cuts) + Complete([], rest, at + |more| + 1, cuts)
    ensures Partial(line, more + ['\n'] + rest) == Partial([], rest)
  {
    assert more + ['\n'] + rest == more + (['\n'] + rest);
    assert (['\n'] + rest)[1..] == rest;
    CompleteExtends(line, more, ['\n'] + rest, at, cuts);
    WithinLine(line, more, at, cuts);
  }

  /** A cut at or past the end of a text says nothing about its lines. */
  lemma {:induction false} LaterCutsDoNotMatter(line: bytes, text: bytes, at: nat, cuts: set<nat>, cut: nat)
    requires cut >= at + |text|
    ensures Complete(line, text, at, cuts + {cut}) == Complete(line, text, at, cuts)
    decreases |text|
  {
    if text != [] {
      LaterCutsDoNotMatter(if text[0] == '\n' then [] else line + [text[0]], text[1..], at + 1, cuts, cut);
    }
  }

  /** Everything up to the last newline is complete lines; the rest is the unfinished one. */
  lemma UpToLastNewline(text: bytes, at: nat, cuts: set<nat>)
    requires LastNewline(text) >= 0
    ensures Complete([], text, at, cuts) == Complete([], text[..LastNewline(text) + 1], at, cuts)
    ensures Partial([], text) == text[LastNewline(text) + 1..]
  {
    var last := LastNewline(text);
    var body, rest := text[..last], text[last + 1..];
    LastIsLast(text);
    assert text[..last + 1] == body + ['\n'];
    assert text == (body + ['\n']) + rest;
    AfterTheLast(body, rest, at, cuts);
  }

  lemma AfterTheLast(body: bytes, rest: bytes, at: nat, cuts: set<nat>)
    requires '\n' !in rest
    ensures Complete([], (body + ['\n']) + rest, at, cuts) == Complete([], body + ['\n'], at, cuts)
    ensures Partial([], (body + ['\n']) + rest) == rest
  {
    var lines := body + ['\n'];
    CompleteExtends([], lines, rest, at, cuts);
    NoneBegun(body, at, cuts);
    WithinLine([], rest, at + |lines|, cuts);
    assert [] + rest == rest;
    assert Complete([], lines, at, cuts) + [] == Complete([], lines, at, cuts);
  }

  lemma NoneBegun(body: bytes, at: nat, cuts: set<nat>)
    ensures Partial([], body + ['\n']) == []
  {
    CompleteExtends([], body, ['\n'], at, cuts);
    assert ['\n'][1..] == [];
  }

  /** No read stopped strictly between two offsets. */
  predicate Uncut(cuts: set<nat>, from: nat, to: nat) {
    forall c :: c in cuts ==> c <= from || to <= c
  }

  /** Collecting complete lines is the same as choosing the wanted ones, if no read stopped inside them. */
  lemma {:induction false} CollectIsComplete(text: bytes, at: nat, cuts: set<nat>)
    requires text == [] || text[|text| - 1] == '\n'
    requires Uncut(cuts, at + MAX_PENDING_BYTES, at + |text|)
    ensures Collect(text) == Complete([], text, at, cuts)
    decreases |text|
  {
    if text != [] {
      var line, rest := CollectFirst(text);
      var newline := at + |line|;
      CollectIsComplete(rest, newline + 1, cuts);
      KeptIsWanted(line, newline, cuts);
      CompleteFirst(text, line, rest, at, newline, cuts);
    }
  }

  lemma CompleteFirst(text: bytes, line: bytes, rest: bytes, at: nat, newline: nat, cuts: set<nat>)
    requires text == line + ['\n'] + rest && '\n' !in line && newline == at + |line|
    ensures Complete([], text, at, cuts) == Shown(line, newline, cuts) + Complete([], rest, newline + 1, cuts)
  {
    LineThenRest([], line, rest, at, cuts);
    assert [] + line == line;
  }

  lemma CollectFirst(text: bytes) returns (line: bytes, rest: bytes)
    requires text != [] && text[|text| - 1] == '\n'
    ensures text == line + ['\n'] + rest && '\n' !in line
    ensures rest == [] || rest[|rest| - 1] == '\n'
    ensures Collect(text) == Kept(line) + Collect(rest)
  {
    var end := FirstNewline(text);
    FirstIsFirst(text);
    assert text[|text| - 1] in text;
    line, rest := text[..end], text[end + 1..];
  }

  /** What the reader makes of a complete line. */
  function Kept(line: bytes): seq<bytes> {
    if |WithoutCr(line)| <= MAX_PENDING_BYTES then [TrimCrs(WithoutCr(line))] else []
  }

  lemma KeptIsWanted(line: bytes, newline: nat, cuts: set<nat>)
    requires |line| > MAX_PENDING_BYTES ==> newline !in cuts
    ensures Kept(line) == Shown(line, newline, cuts)
  {
    assert TrimCrs(WithoutCr(line)) == TrimCrs(line);
  }

  // ---------------------------------------------------------------- histories

  /**
   * What has happened since the tailer last started over: where it began, whether the first line was
   * to be dropped, the bytes read, the offsets at which reads stopped, and the lines returned.
   */
  datatype History =
    | NotWatching
    | Watching(base: nat, prefix: bool, seen: bytes, cuts: set<nat>, lines: seq<bytes>)

  /** What an observation makes the tailer start from. */
  function StartedOver(h: History, t: Tail, seen: Observation): History
    requires seen.Readable?
  {
    if !t.initialized then
      var base := Positioned(t, seen.length).offset;
      Watching(base, base > 0 && !seen.readFails, [], {}, [])
    else if seen.length < t.offset then Watching(0, false, [], {}, [])
    else h
  }

  function Witnessed(h: History, t: Tail, seen: Observation): History {
    match seen
    case Missing => NotWatching
    case CannotOpen => h
    case Readable(length, content, readFails) =>
      var at := Positioned(t, length);
      var started := StartedOver(h, t, seen);
      if length <= at.offset || readFails || started.NotWatching? then started
      else
        Extended(started, Fetched(content, at.offset), LinesOf(ReadOnce(t, seen).reading))
  }

  function LinesOf(reading: Reading): seq<bytes> {
    if reading.Lines? then reading.lines else []
  }

  function Extended(h: History, data: bytes, lines: seq<bytes>): History
    requires h.Watching?
  {
    var grown := Grown(h, data);
    grown.(lines := h.lines + lines)
  }

  function End(h: History): nat
    requires h.Watching?
  {
    h.base + |h.seen|
  }

  /** After a read that brought `data`. */
  function Grown(h: History, data: bytes): (r: History)
    requires h.Watching?
    ensures r.Watching? && r.prefix == h.prefix && r.lines == h.lines && End(r) == End(h) + |data|
  {
    h.(seen := h.seen + data, cuts := h.cuts + {End(h) + |data|})
  }

  /** The first line that counts has been reached. */
  predicate Begun(h: History)
    requires h.Watching?
  {
    !h.prefix || HasNewline(h.seen)
  }

  /** The text from there on. */
  function Text(h: History): (r: bytes)
    requires h.Watching? && Begun(h)
    ensures |r| <= |h.seen|
  {
    if h.prefix then AfterNewline(h.seen) else h.seen
  }

  /** Exactly the lines that should have been returned. */
  function Expected(h: History): seq<bytes>
    requires h.Watching?
  {
    if Begun(h) then Complete([], Text(h), End(h) - |Text(h)|, h.cuts) else []
  }

  /** The buffer holds the unfinished line, or that line has already outgrown it at some read. */
  predicate Buffered(t: Tail, unfinished: bytes, cuts: set<nat>)
  {
    && |unfinished| <= t.offset
    && '\n' !in unfinished
    && if t.discarding
       then t.pending == [] && exists c :: c in cuts && t.offset - |unfinished| + MAX_PENDING_BYTES < c <= t.offset
       else t.pending == unfinished && |unfinished| <= MAX_PENDING_BYTES
  }

  predicate InHand(t: Tail, h: History)
    requires h.Watching?
  {
    if Begun(h) then Buffered(t, Partial([], Text(h)), h.cuts) else t.discarding && t.pending == []
  }

  ghost predicate Tracks(t: Tail, h: History) {
    match h
    case NotWatching => t == UNOPENED
    case Watching(base, prefix, seen, cuts, lines) =>
      && t.initialized
      && t.offset == End(h)
      && (forall c :: c in cuts ==> c <= t.offset)
      && lines == Expected(h)
      && InHand(t, h)
  }

  // ---------------------------------------------------------------- one call keeps track

  /** What absorbing data that starts at offset `from` returns and leaves. */
  lemma AbsorbedLines(t: Tail, data: bytes, from: nat, cuts: set<nat>)
    requires !t.discarding && '\n' !in t.pending && |t.pending| <= MAX_PENDING_BYTES
    requires from + |data| == t.offset && |t.pending| <= from
    requires Uncut(cuts, from, t.offset) && t.offset in cuts
    ensures var d := Absorbed(t, data);
            && d.lines == Complete(t.pending, data, from, cuts)
            && d.tail.offset == t.offset && d.tail.initialized == t.initialized
            && Buffered(d.tail, Partial(t.pending, data), cuts)
  {
    var all := t.pending + data;
    var at := from - |t.pending|;
    BufferThenData(t.pending, data, at, from, cuts);
    AbsorbedIs(t, data, at, cuts);
    BufferedOrOutgrown(t.(pending := Partial([], all)), cuts);
  }

  lemma AbsorbedIs(t: Tail, data: bytes, at: nat, cuts: set<nat>)
    requires Uncut(cuts, at + MAX_PENDING_BYTES, at + |t.pending + data|)
    ensures var all := t.pending + data;
            && Absorbed(t, data) == Digested(Capped(t.(pending := Partial([], all))), Complete([], all, at, cuts))
            && '\n' !in Partial([], all)
  {
    SplitAtLast(t.pending + data, at, cuts);
    LastIsLast(t.pending + data);
  }

  lemma BufferThenData(begun: bytes, data: bytes, at: nat, next: nat, cuts: set<nat>)
    requires '\n' !in begun && next == at + |begun|
    ensures Complete([], begun + data, at, cuts) == Complete(begun, data, next, cuts)
    ensures Partial([], begun + data) == Partial(begun, data)
  {
    assert [] + begun == begun;
    WithinLine([], begun, at, cuts);
    CompleteExtends([], begun, data, at, cuts);
    assert [] + Complete(begun, data, next, cuts) == Complete(begun, data, next, cuts);
  }

  lemma SplitAtLast(all: bytes, at: nat, cuts: set<nat>)
    requires Uncut(cuts, at + MAX_PENDING_BYTES, at + |all|)
    ensures Collect(all[..LastNewline(all) + 1]) == Complete([], all, at, cuts)
    ensures Partial([], all) == all[LastNewline(all) + 1..]
  {
    var last := LastNewline(all);
    LastIsLast(all);
    if last < 0 {
      WithinLine([], all, at, cuts);
      assert all[..last + 1] == [] && all[last + 1..] == all && [] + all == all;
    } else {
      UpToLastNewline(all, at, cuts);
      CollectIsComplete(all[..last + 1], at, cuts);
    }
  }

  lemma BufferedOrOutgrown(t: Tail, cuts: set<nat>)
    requires !t.discarding && |t.pending| <= t.offset && '\n' !in t.pending && t.offset in cuts
    ensures Buffered(Capped(t), t.pending, cuts)
  {
    assert |t.pending| > MAX_PENDING_BYTES ==> t.offset - |t.pending| + MAX_PENDING_BYTES < t.offset;
  }

  /** The wanted text grows with what is read; before the first newline there is none. */
  lemma TextGrows(h: History, data: bytes)
    requires h.Watching?
    ensures Begun(Grown(h, data)) <==> Begun(h) || HasNewline(data)
    ensures Begun(h) ==> Text(Grown(h, data)) == Text(h) + data
    ensures !Begun(h) && HasNewline(data) ==> Text(Grown(h, data)) == AfterNewline(data)
  {
    if h.prefix {
      if HasNewline(h.seen) {
        AfterInFirst(h.seen, data);
      } else {
        AfterInSecond(h.seen, data);
      }
    }
  }

  lemma AfterInFirst(a: bytes, b: bytes)
    requires HasNewline(a)
    ensures HasNewline(a + b) && AfterNewline(a + b) == AfterNewline(a) + b
  {
    FirstOfConcat(a, b);
    SliceAppend(a, b, FirstNewline(a) + 1);
  }

  lemma AfterInSecond(a: bytes, b: bytes)
    requires !HasNewline(a)
    ensures HasNewline(a + b) <==> HasNewline(b)
    ensures HasNewline(b) ==> AfterNewline(a + b) == AfterNewline(b)
  {
    FirstOfConcat(a, b);
    if HasNewline(b) {
      DropPast(a, b, FirstNewline(b) + 1);
    }
  }

  lemma DropPast(a: bytes, b: bytes, n: nat)
    requires n <= |b|
    ensures (a + b)[|a| + n..] == b[n..]
  {
  }

  /** What is expected grows by what the new data completes. */
  lemma ExpectedGrows(h: History, data: bytes, line: bytes, cuts: set<nat>)
    requires h.Watching? && Begun(h) && line == Partial([], Text(h))
    requires cuts == Grown(h, data).cuts
    ensures Expected(Grown(h, data)) == Expected(h) + Complete(line, data, End(h), cuts)
    ensures Begun(Grown(h, data)) && Partial([], Text(Grown(h, data))) == Partial(line, data)
  {
    var text := Text(h);
    var start := End(h) - |text|;
    assert start + |text| == End(h);
    TextGrows(h, data);
    assert End(Grown(h, data)) - |text + data| == start;
    LaterCutsDoNotMatter([], text, start, h.cuts, End(h) + |data|);
    CompleteExtends([], text, data, start, cuts);
  }

  /** The tailer and its history after data came in. */
  ghost predicate KeepsTrack(h: History, data: bytes, next: Tail, lines: seq<bytes>)
    requires h.Watching?
  {
    Tracks(next, Extended(h, data, lines))
  }

  lemma Recorded(h: History, data: bytes, next: Tail, lines: seq<bytes>)
    requires h.Watching?
    requires next.initialized && next.offset == End(h) + |data|
    requires forall c :: c in h.cuts ==> c <= End(h)
    requires Expected(Grown(h, data)) == h.lines + lines
    requires InHand(next, Grown(h, data))
    ensures KeepsTrack(h, data, next, lines)
  {
  }

  /** Data absorbed where the history expects it keeps the tailer and its history together. */
  lemma AbsorbedKeepsTrack(moved: Tail, h: History, data: bytes, rest: bytes, from: nat, cuts: set<nat>)
    requires h.Watching? && moved.initialized && !moved.discarding
    requires '\n' !in moved.pending && |moved.pending| <= MAX_PENDING_BYTES
    requires moved.offset == End(h) + |data| == from + |rest| && |rest| <= |data| && |moved.pending| <= from
    requires cuts == Grown(h, data).cuts && forall c :: c in h.cuts ==> c <= End(h)
    requires Expected(Grown(h, data)) == h.lines + Complete(moved.pending, rest, from, cuts)
    requires Begun(Grown(h, data)) && Partial([], Text(Grown(h, data))) == Partial(moved.pending, rest)
    ensures KeepsTrack(h, data, Absorbed(moved, rest).tail, Absorbed(moved, rest).lines)
  {
    AbsorbedLines(moved, rest, from, cuts);
    Recorded(h, data, Absorbed(moved, rest).tail, Absorbed(moved, rest).lines);
  }

  /** The wanted text begins inside the data just read. */
  lemma TextBegins(t: Tail, h: History, data: bytes, rest: bytes)
    requires h.Watching? && t.initialized && !t.discarding && t.pending == []
    requires t.offset == End(h) + |data| && |rest| <= |data|
    requires forall c :: c in h.cuts ==> c <= End(h)
    requires h.lines == [] && Begun(Grown(h, data)) && Text(Grown(h, data)) == rest
    ensures KeepsTrack(h, data, Absorbed(t, rest).tail, Absorbed(t, rest).lines)
  {
    var from := t.offset - |rest|;
    var lines := Complete([], rest, from, Grown(h, data).cuts);
    assert h.lines + lines == lines;
    AbsorbedKeepsTrack(t, h, data, rest, from, Grown(h, data).cuts);
  }

  /** More of the wanted text while the unfinished line is in the buffer. */
  lemma TextContinues(t: Tail, moved: Tail, h: History, data: bytes)
    requires h.Watching? && Tracks(t, h) && Begun(h) && !t.discarding
    requires moved == t.(offset := t.offset + |data|)
    ensures KeepsTrack(h, data, Absorbed(moved, data).tail, Absorbed(moved, data).lines)
  {
    ExpectedGrows(h, data, t.pending, Grown(h, data).cuts);
    AbsorbedKeepsTrack(moved, h, data, data, End(h), Grown(h, data).cuts);
  }

  /** A line already outgrown goes on. */
  lemma OutgrownContinues(t: Tail, h: History, data: bytes)
    requires h.Watching? && Tracks(t, h) && Begun(h) && t.discarding
    requires '\n' !in data
    ensures KeepsTrack(h, data, t.(offset := t.offset + |data|), [])
  {
    var line := Partial([], Text(h));
    var moved := t.(offset := t.offset + |data|);
    var cuts := Grown(h, data).cuts;
    WithinLine(line, data, End(h), cuts);
    ExpectedGrows(h, data, line, cuts);
    assert Expected(h) + [] == h.lines == h.lines + [];
    var c :| c in h.cuts && t.offset - |line| + MAX_PENDING_BYTES < c <= t.offset;
    assert c in cuts && moved.offset - |line + data| + MAX_PENDING_BYTES < c <= moved.offset;
    Recorded(h, data, moved, []);
  }

  /** An outgrown line ends: it is not returned, and what follows is taken in afresh. */
  lemma OutgrownEnds(t: Tail, moved: Tail, h: History, data: bytes, line: bytes, rest: bytes)
    requires h.Watching? && Tracks(t, h) && Begun(h) && t.discarding
    requires moved == t.(offset := t.offset + |data|, discarding := false)
    requires data == line + ['\n'] + rest && '\n' !in line
    ensures KeepsTrack(h, data, Absorbed(moved, rest).tail, Absorbed(moved, rest).lines)
  {
    var begun := Partial([], Text(h));
    var cuts := Grown(h, data).cuts;
    var from := moved.offset - |rest|;
    OutgrownAddsNothing(begun, line, rest, data, End(h), from, cuts);
    ExpectedGrows(h, data, begun, cuts);
    AbsorbedKeepsTrack(moved, h, data, rest, from, cuts);
  }

  lemma OutgrownAddsNothing(begun: bytes, line: bytes, rest: bytes, data: bytes, at: nat, next: nat, cuts: set<nat>)
    requires |begun| <= at && exists c :: c in cuts && at - |begun| + MAX_PENDING_BYTES < c <= at
    requires data == line + ['\n'] + rest && '\n' !in line && next == at + |line| + 1
    ensures Complete(begun, data, at, cuts) == Complete([], rest, next, cuts)
    ensures Partial(begun, data) == Partial([], rest)
  {
    OutgrownIsUnwanted(begun, line, at, cuts);
    LineThenRest(begun, line, rest, at, cuts);
    assert [] + Complete([], rest, next, cuts) == Complete([], rest, next, cuts);
  }

  lemma OutgrownIsUnwanted(begun: bytes, line: bytes, at: nat, cuts: set<nat>)
    requires |begun| <= at && exists c :: c in cuts && at - |begun| + MAX_PENDING_BYTES < c <= at
    ensures Shown(begun + line, at + |line|, cuts) == []
  {
    if OneOver(begun + line) {
      assert |line| == 0;
    }
  }

  /** A tailer that is not dropping a line takes everything in. */
  lemma DigestAtOnce(t: Tail, moved: Tail, data: bytes)
    requires !t.discarding && moved == t.(offset := t.offset + |data|)
    ensures Digest(t, data, false) == Absorbed(moved, data)
  {
  }

  /** One that is dropping a line goes on doing so until its newline comes. */
  lemma DigestNothing(t: Tail, moved: Tail, data: bytes)
    requires t.discarding && moved == t.(offset := t.offset + |data|) && !HasNewline(data)
    ensures Digest(t, data, false) == Digested(moved, [])
  {
  }

  /** Then it takes in what follows. */
  lemma DigestTheRest(t: Tail, moved: Tail, data: bytes)
    requires t.discarding && moved == t.(offset := t.offset + |data|, discarding := false) && HasNewline(data)
    ensures Digest(t, data, false) == Absorbed(moved, AfterNewline(data))
  {
  }

  /** Data coming in, whatever state the tailer is in. */
  lemma DigestKeepsTrack(t: Tail, h: History, data: bytes)
    requires h.Watching? && Tracks(t, h)
    ensures KeepsTrack(h, data, Digest(t, data, false).tail, Digest(t, data, false).lines)
  {
    var moved := t.(offset := t.offset + |data|);
    if !t.discarding {
      DigestAtOnce(t, moved, data);
      TextContinues(t, moved, h, data);
    } else {
      if !HasNewline(data) {
        DigestNothing(t, moved, data);
        DroppingGoesOn(t, moved, h, data);
      } else {
        var resumed := moved.(discarding := false);
        DigestTheRest(t, resumed, data);
        DroppingEnds(t, resumed, h, data, AfterNewline(data));
      }
    }
  }

  lemma DroppingGoesOn(t: Tail, moved: Tail, h: History, data: bytes)
    requires h.Watching? && Tracks(t, h) && t.discarding && !HasNewline(data)
    requires moved == t.(offset := t.offset + |data|)
    ensures KeepsTrack(h, data, moved, [])
  {
    FirstIsFirst(data);
    if !Begun(h) {
      TextGrows(h, data);
      assert h.lines + [] == [];
      Recorded(h, data, moved, []);
    } else {
      OutgrownContinues(t, h, data);
    }
  }

  lemma DroppingEnds(t: Tail, moved: Tail, h: History, data: bytes, rest: bytes)
    requires h.Watching? && Tracks(t, h) && t.discarding
    requires HasNewline(data) && rest == AfterNewline(data)
    requires moved == t.(offset := t.offset + |data|, discarding := false)
    ensures KeepsTrack(h, data, Absorbed(moved, rest).tail, Absorbed(moved, rest).lines)
  {
    if !Begun(h) {
      TextGrows(h, data);
      TextBegins(moved, h, data, rest);
    } else {
      var end := FirstNewline(data);
      FirstIsFirst(data);
      assert data == data[..end] + ['\n'] + rest;
      OutgrownEnds(t, moved, h, data, data[..end], rest);
    }
  }

  /** The first read of a file that is too long to be read from its start. */
  lemma FirstReadKeepsTrack(t: Tail, data: bytes)
    requires t.initialized && t.pending == [] && !t.discarding && t.offset > 0
    ensures var Digested(next, lines) := Digest(t, data, true);
            KeepsTrack(Watching(t.offset, true, [], {}, []), data, next, lines)
  {
    var h := Watching(t.offset, true, [], {}, []);
    var moved := t.(offset := t.offset + |data|);
    TextGrows(h, data);
    var end := FirstNewline(data);
    if end < 0 {
      Recorded(h, data, moved.(discarding := true), []);
    } else {
      TextBegins(moved, h, data, data[end + 1..]);
    }
  }

  /** The call gets to read. */
  predicate Reads(t: Tail, seen: Observation) {
    seen.Readable? && seen.length > Positioned(t, seen.length).offset && !seen.readFails
  }

  /** What reading does to the tailer and adds to its history. */
  lemma ReadingIs(t: Tail, h: History, seen: Observation, at: Tail, started: History)
    requires Reads(t, seen) && at == Positioned(t, seen.length)
    requires started == StartedOver(h, t, seen) && started.Watching?
    ensures var d := Digest(at, Fetched(seen.content, at.offset), !t.initialized && at.offset > 0);
            && ReadOnce(t, seen).tail == d.tail
            && Witnessed(h, t, seen) == Extended(started, Fetched(seen.content, at.offset), d.lines)
  {
    assert LinesOf(ReadOnce(t, seen).reading)
        == Digest(at, Fetched(seen.content, at.offset), !t.initialized && at.offset > 0).lines;
  }

  /** Every call keeps track, whatever it finds: no file, an unreadable one, a truncated or replaced one. */
  lemma CallKeepsTrack(t: Tail, h: History, seen: Observation)
    requires Tracks(t, h)
    ensures Tracks(ReadOnce(t, seen).tail, Witnessed(h, t, seen))
  {
    if Reads(t, seen) {
      var at := Positioned(t, seen.length);
      var started := StartedOver(h, t, seen);
      assert started.Watching?;
      ReadingIs(t, h, seen, at, started);
      ReadingKeepsTrack(t, h, seen, at, started, Fetched(seen.content, at.offset));
    } else if seen.Readable? {
      StartIsTracked(t, h, seen);
    }
  }

  lemma ReadingKeepsTrack(t: Tail, h: History, seen: Observation, at: Tail, started: History, data: bytes)
    requires Tracks(t, h) && Reads(t, seen) && at == Positioned(t, seen.length)
    requires started == StartedOver(h, t, seen) && started.Watching?
    ensures var d := Digest(at, data, !t.initialized && at.offset > 0);
            KeepsTrack(started, data, d.tail, d.lines)
  {
    if !t.initialized && at.offset > 0 {
      FirstReadKeepsTrack(at, data);
    } else {
      StartIsTracked(t, h, seen);
      DigestKeepsTrack(at, started, data);
    }
  }

  lemma StartIsTracked(t: Tail, h: History, seen: Observation)
    requires Tracks(t, h) && seen.Readable?
    requires !t.initialized ==> Positioned(t, seen.length).offset == 0 || seen.readFails
    ensures StartedOver(h, t, seen).Watching? && Tracks(Positioned(t, seen.length), StartedOver(h, t, seen))
  {
    assert Complete([], [], 0, {}) == [];
  }

  // ---------------------------------------------------------------- whole schedules

  /** The tailer, and what it has lived through, after a sequence of calls. */
  function Session(calls: seq<Observation>): (Tail, History) {
    if calls == [] then (UNOPENED, NotWatching)
    else
      var (t, h) := Session(calls[..|calls| - 1]);
      var seen := calls[|calls| - 1];
      (ReadOnce(t, seen).tail, Witnessed(h, t, seen))
  }

  /**
   * Over any schedule the lines returned since the tailer last started over are exactly the expected
   * ones, and the buffer stays bounded.
   */
  lemma {:induction false} EveryScheduleIsExact(calls: seq<Observation>)
    ensures var (t, h) := Session(calls);
            && Tracks(t, h)
            && |t.pending| <= MAX_PENDING_BYTES
            && (h.Watching? ==> h.lines == Expected(h))
  {
    if calls != [] {
      var earlier := calls[..|calls| - 1];
      EveryScheduleIsExact(earlier);
      CallKeepsTrack(Session(earlier).0, Session(earlier).1, calls[|calls| - 1]);
    }
  }

  /** How much of the file had been written when it was last looked at. */
  function Reached(calls: seq<Observation>): nat {
    if calls == [] then 0
    else if calls[|calls| - 1].Readable? then |calls[|calls| - 1].content|
    else Reached(calls[..|calls| - 1])
  }

  /** The file only ever grows towards `file`; its length is taken no later than its content. */
  predicate AppendOnly(file: bytes, calls: seq<Observation>) {
    calls == []
    || (var earlier := calls[..|calls| - 1];
        var seen := calls[|calls| - 1];
        && AppendOnly(file, earlier)
        && !seen.Missing?
        && (seen.Readable? ==> seen.content <= file && Reached(earlier) <= seen.length <= |seen.content|))
  }

  /** The bytes read are one stretch of the file, ending at the offset. */
  predicate Stretch(file: bytes, t: Tail, h: History, reached: nat) {
    reached <= |file| &&
    match h
    case NotWatching => t == UNOPENED
    case Watching(base, prefix, seen, _, _) =>
      && t.initialized && base <= t.offset == End(h) <= reached
      && seen == file[base..t.offset] && (prefix ==> base > 0)
  }

  /** On a growing file every session reads one stretch of it. */
  lemma {:induction false} SeenIsAStretch(file: bytes, calls: seq<Observation>)
    requires AppendOnly(file, calls)
    ensures Stretch(file, Session(calls).0, Session(calls).1, Reached(calls))
  {
    if calls != [] {
      var earlier := calls[..|calls| - 1];
      SeenIsAStretch(file, earlier);
      StretchGrows(file, Session(earlier).0, Session(earlier).1, Reached(earlier), calls[|calls| - 1]);
    }
  }

  lemma StretchGrows(file: bytes, t: Tail, h: History, reached: nat, seen: Observation)
    requires Stretch(file, t, h, reached) && !seen.Missing?
    requires seen.Readable? ==> seen.content <= file && reached <= seen.length <= |seen.content|
    ensures Stretch(file, ReadOnce(t, seen).tail, Witnessed(h, t, seen),
                    if seen.Readable? then |seen.content| else reached)
  {
    if seen.Readable? {
      var at := Positioned(t, seen.length);
      var started := StartedOver(h, t, seen);
      assert Stretch(file, at, started, |seen.content|);
      if seen.length > at.offset && !seen.readFails {
        StretchReads(file, at, started, seen.content, LinesOf(ReadOnce(t, seen).reading),
                     !t.initialized && at.offset > 0);
      }
    }
  }

  lemma ExtendedFields(h: History, data: bytes, lines: seq<bytes>)
    requires h.Watching?
    ensures var r := Extended(h, data, lines);
            && r.Watching? && r.base == h.base && r.prefix == h.prefix && r.seen == h.seen + data
            && End(r) == End(h) + |data|
  {
  }

  lemma StretchReads(file: bytes, t: Tail, h: History, content: bytes, returned: seq<bytes>, prefix: bool)
    requires h.Watching? && content <= file && Stretch(file, t, h, |content|)
    ensures var data := Fetched(content, t.offset);
            Stretch(file, Digest(t, data, prefix).tail, Extended(h, data, returned), |content|)
  {
    var data := Fetched(content, t.offset);
    var Digested(next, lines) := Digest(t, data, prefix);
    var longer := Extended(h, data, returned);
    DigestMoves(t, data, prefix);
    Adjacent(file, content, h.base, t.offset, data);
    ExtendedFields(h, data, returned);
    assert longer.seen == file[longer.base..next.offset] && End(longer) == next.offset;
  }

  lemma Adjacent(file: bytes, content: bytes, base: nat, at: nat, data: bytes)
    requires content <= file && base <= at <= |content| && data <= content[at..]
    ensures at + |data| <= |content| && file[base..at] + data == file[base..at + |data|]
  {
    assert data == content[at..at + |data|] == file[at..at + |data|];
  }

  lemma DigestMoves(t: Tail, data: bytes, prefix: bool)
    ensures var Digested(next, lines) := Digest(t, data, prefix);
            next.offset == t.offset + |data| && next.initialized == t.initialized
  {
  }

  // ---------------------------------------------------------------- what it means

  /** Some line's fate was settled by a read that stopped right before its newline. */
  predicate CutsALine(line: bytes, text: bytes, at: nat, cuts: set<nat>)
    decreases |text|
  {
    text != []
    && if text[0] == '\n' then (OneOver(line) && at in cuts) || CutsALine([], text[1..], at + 1, cuts)
       else CutsALine(line + [text[0]], text[1..], at + 1, cuts)
  }

  /** Where reads stop can only lose lines, and it does so exactly when it cuts one that is one byte over. */
  lemma {:induction false} CutsOnlyLose(line: bytes, text: bytes, at: nat, cuts: set<nat>)
    ensures |Complete(line, text, at, cuts)| <= |Complete(line, text, at, {})|
    ensures |Complete(line, text, at, cuts)| == |Complete(line, text, at, {})| <==> !CutsALine(line, text, at, cuts)
    ensures Complete(line, text, at, cuts) == Complete(line, text, at, {}) <==> !CutsALine(line, text, at, cuts)
    decreases |text|
  {
    if text != [] {
      CutsOnlyLose(if text[0] == '\n' then [] else line + [text[0]], text[1..], at + 1, cuts);
    }
  }

  /** Where the returned lines begin: at the start of the file, after a newline, or where a failed first read was. */
  function FirstOffset(h: History): nat
    requires h.Watching? && Begun(h)
  {
    End(h) - |Text(h)|
  }

  lemma StartsALine(file: bytes, t: Tail, h: History, reached: nat)
    requires h.Watching? && Stretch(file, t, h, reached) && Begun(h)
    ensures h.base <= FirstOffset(h) <= t.offset && Text(h) == file[FirstOffset(h)..t.offset]
    ensures h.prefix ==> file[FirstOffset(h) - 1] == '\n'
    ensures !h.prefix ==> FirstOffset(h) == h.base
  {
    if h.prefix {
      var end := FirstNewline(h.seen);
      assert h.seen[end] == file[h.base + end];
    }
  }

  /** Exactly the wanted lines of the stretch; all that would ever be wanted, if and only if no cut lost one. */
  predicate Refines(stretch: bytes, first: nat, cuts: set<nat>, lines: seq<bytes>) {
    && lines == Complete([], stretch, first, cuts)
    && (lines == Complete([], stretch, first, {}) <==> !CutsALine([], stretch, first, cuts))
  }

  /** A line of the file starts here. */
  predicate StartsLine(file: bytes, at: nat)
    requires at <= |file|
  {
    at == 0 || file[at - 1] == '\n'
  }

  /** The call at which the tailer last started over: its first look at a file, or at one that had shrunk. */
  function Opening(calls: seq<Observation>): Observation {
    if calls == [] then Missing
    else
      var earlier := calls[..|calls| - 1];
      var seen := calls[|calls| - 1];
      if seen.Missing? then Missing
      else if seen.Readable? && StartsOver(Session(earlier).0, seen) then seen
      else Opening(earlier)
  }

  predicate StartsOver(t: Tail, seen: Observation)
    requires seen.Readable?
  {
    !t.initialized || seen.length < t.offset
  }

  /**
   * What that call decided: where the stretch begins, and that its first line is to be dropped just when
   * it begins past the start of the file and the read there succeeded.
   */
  predicate Opened(h: History, opening: Observation) {
    match h
    case NotWatching => opening.Missing?
    case Watching(base, prefix, _, _, _) =>
      && opening.Readable?
      && (base > 0 ==> base == opening.length - INITIAL_TAIL_BYTES)
      && (prefix <==> base > 0 && !opening.readFails)
  }

  lemma {:induction false} OpeningDecides(calls: seq<Observation>)
    ensures Opened(Session(calls).1, Opening(calls))
  {
    if calls != [] {
      var earlier := calls[..|calls| - 1];
      OpeningDecides(earlier);
      EveryScheduleIsExact(earlier);
      StillOpened(Session(earlier).0, Session(earlier).1, Opening(earlier), calls[|calls| - 1]);
    }
  }

  lemma StillOpened(t: Tail, h: History, opening: Observation, seen: Observation)
    requires Tracks(t, h) && Opened(h, opening)
    ensures Opened(Witnessed(h, t, seen),
                   if seen.Missing? then seen else if seen.Readable? && StartsOver(t, seen) then seen else opening)
  {
    if seen.Readable? {
      assert h.NotWatching? ==> StartsOver(t, seen);
    }
  }

  /**
   * The refinement: on a file that only grows, the lines returned are the complete lines of at most
   * MAX_PENDING_BYTES between the first offset and the current one, each once and in order, the same
   * for every schedule, if and only if no read stopped right before the newline of a line that is one
   * byte over because of its carriage return. The first offset is a line start, so that no fragment is
   * returned as a line, if and only if the first read was placed at one or did not fail.
   */
  lemma TailRefinesTheFile(file: bytes, calls: seq<Observation>)
    requires AppendOnly(file, calls)
    ensures var (t, h) := Session(calls);
            h.Watching? ==>
              && h.base <= t.offset <= |file|
              && (!Begun(h) ==> h.lines == [])
              && (Begun(h) ==>
                    && FirstOffset(h) <= t.offset
                    && Refines(file[FirstOffset(h)..t.offset], FirstOffset(h), h.cuts, h.lines)
                    && Opening(calls).Readable?
                    && (StartsLine(file, FirstOffset(h)) <==> StartsLine(file, h.base) || !Opening(calls).readFails))
  {
    EveryScheduleIsExact(calls);
    SeenIsAStretch(file, calls);
    OpeningDecides(calls);
    var (t, h) := Session(calls);
    if h.Watching? && Begun(h) {
      StretchIsRefined(file, t, h, Reached(calls));
      StartsALine(file, t, h, Reached(calls));
    }
  }

  lemma StretchIsRefined(file: bytes, t: Tail, h: History, reached: nat)
    requires h.Watching? && Stretch(file, t, h, reached) && Begun(h) && h.lines == Expected(h)
    ensures FirstOffset(h) <= t.offset <= |file|
    ensures Refines(file[FirstOffset(h)..t.offset], FirstOffset(h), h.cuts, h.lines)
  {
    StartsALine(file, t, h, reached);
    CutsOnlyLose([], Text(h), FirstOffset(h), h.cuts);
  }

  /** Without carriage returns no cut matters. */
  lemma {:induction false} NoCarriageReturns(line: bytes, text: bytes, at: nat, cuts: set<nat>)
    requires '\r' !in line && '\r' !in text
    ensures !CutsALine(line, text, at, cuts)
    decreases |text|
  {
    if text != [] {
      NoCarriageReturns(if text[0] == '\n' then [] else line + [text[0]], text[1..], at + 1, cuts);
    }
  }

  // ---------------------------------------------------------------- two witnesses

  lemma SessionUnfolds(calls: seq<Observation>, seen: Observation)
    ensures var (t, h) := Session(calls);
            Session(calls + [seen]) == (ReadOnce(t, seen).tail, Witnessed(h, t, seen))
  {
    assert (calls + [seen])[..|calls|] == calls;
  }

  /** A session that began at the start of the file, has read `content` and stopped at the given offsets. */
  predicate FromStart(t: Tail, h: History, content: bytes, cuts: set<nat>) {
    && t.initialized && t.offset == |content|
    && h.Watching? && h.base == 0 && !h.prefix && h.seen == content && h.cuts == cuts
  }

  lemma FirstCall(content: bytes)
    requires 0 < |content| <= INITIAL_TAIL_BYTES
    ensures var (t, h) := Session([Readable(|content|, content, false)]);
            FromStart(t, h, content, {|content|})
  {
    var seen := Readable(|content|, content, false);
    SessionUnfolds([], seen);
    assert [] + [seen] == [seen];
    FirstReading(content, seen);
  }

  lemma FirstReading(content: bytes, seen: Observation)
    requires 0 < |content| <= INITIAL_TAIL_BYTES && seen == Readable(|content|, content, false)
    ensures FromStart(ReadOnce(UNOPENED, seen).tail, Witnessed(NotWatching, UNOPENED, seen), content, {|content|})
  {
    var open := Tail(0, [], false, true);
    var started := Watching(0, false, [], {}, []);
    assert Fetched(content, 0) == content && [] + content == content;
    assert {} + {|content|} == {|content|};
    ReadingIs(UNOPENED, NotWatching, seen, open, started);
    MovesTo(open, started, content, [], content);
  }

  /** Reading on from the start of the file. */
  lemma MovesTo(t: Tail, h: History, data: bytes, before: bytes, content: bytes)
    requires h.Watching? && h.base == 0 && !h.prefix && h.seen == before && t.offset == |before| && t.initialized
    requires before + data == content
    ensures var d := Digest(t, data, false);
            FromStart(d.tail, Extended(h, data, d.lines), content, h.cuts + {|content|})
  {
    var d := Digest(t, data, false);
    DigestMoves(t, data, false);
    ExtendedFields(h, data, d.lines);
    ExtendedCuts(h, data, d.lines, |content|);
  }

  lemma ExtendedCuts(h: History, data: bytes, lines: seq<bytes>, end: nat)
    requires h.Watching? && End(h) + |data| == end
    ensures Extended(h, data, lines).cuts == h.cuts + {end}
  {
  }

  /** Another call, once the file has grown a little. */
  lemma NextCall(calls: seq<Observation>, before: bytes, content: bytes, cuts: set<nat>)
    requires before < content && |content| <= INITIAL_TAIL_BYTES
    requires FromStart(Session(calls).0, Session(calls).1, before, cuts)
    ensures var (t, h) := Session(calls + [Readable(|content|, content, false)]);
            FromStart(t, h, content, cuts + {|content|})
  {
    SessionUnfolds(calls, Readable(|content|, content, false));
    ReadsTheRest(Session(calls).0, Session(calls).1, before, content, cuts);
  }

  lemma ReadsTheRest(t: Tail, h: History, before: bytes, content: bytes, cuts: set<nat>)
    requires before < content && |content| <= INITIAL_TAIL_BYTES && FromStart(t, h, before, cuts)
    ensures var seen := Readable(|content|, content, false);
            FromStart(ReadOnce(t, seen).tail, Witnessed(h, t, seen), content, cuts + {|content|})
  {
    var seen := Readable(|content|, content, false);
    var data := Fetched(content, t.offset);
    assert data == content[|before|..] && before + data == content;
    ReadingIs(t, h, seen, t, h);
    MovesTo(t, h, data, before, content);
  }

  /** A line of exactly the limit, ended by CRLF, is returned or lost depending on where one read stops. */
  lemma CarriageReturnAtTheLimit(line: bytes, begun: bytes, file: bytes)
    requires |line| == MAX_PENDING_BYTES && '\n' !in line
    requires begun == line + ['\r'] && file == begun + ['\n']
    ensures var whole := Readable(|file|, file, false);
            var once := Session([whole]).1;
            var twice := Session([Readable(|begun|, begun, false)] + [whole]).1;
            && once.Watching? && once.lines == [TrimCrs(line)]
            && twice.Watching? && twice.lines == [] && twice.seen == once.seen
  {
    var whole, partly := Readable(|file|, file, false), Readable(|begun|, begun, false);
    FirstCall(file);
    FirstCall(begun);
    NextCall([partly], begun, file, {|begun|});
    EveryScheduleIsExact([whole]);
    EveryScheduleIsExact([partly] + [whole]);
    AloneInFile(line, begun, file);
  }

  lemma AloneInFile(line: bytes, begun: bytes, file: bytes)
    requires |line| == MAX_PENDING_BYTES && '\n' !in line
    requires begun == line + ['\r'] && file == begun + ['\n']
    ensures Complete([], file, 0, {|file|}) == [TrimCrs(line)]
    ensures Complete([], file, 0, {|begun|} + {|file|}) == []
  {
    assert begun[..|line|] == line && OneOver(begun);
    OneLineFile(begun, file, {|file|});
    OneLineFile(begun, file, {|begun|} + {|file|});
    assert TrimCrs(begun) == TrimCrs(line);
  }

  lemma OneLineFile(line: bytes, file: bytes, cuts: set<nat>)
    requires '\n' !in line && file == line + ['\n']
    ensures Complete([], file, 0, cuts) == Shown(line, |line|, cuts)
  {
    assert file == line + ['\n'] + [];
    CompleteFirst(file, line, [], 0, |line|, cuts);
    assert Shown(line, |line|, cuts) + [] == Shown(line, |line|, cuts);
  }

  /** When the first read of a long file fails, the next one returns the end of a line as if it were a line. */
  lemma FragmentAfterFailedRead(rest: bytes)
    requires |rest| == INITIAL_TAIL_BYTES - 2
    ensures var file := ['x', 'y', '\n'] + rest;
            var failed := ReadOnce(UNOPENED, Readable(|file|, file, true));
            var next := ReadOnce(failed.tail, Readable(|file|, file, false));
            && failed.reading == IoError
            && next.reading.Lines? && next.reading.lines != [] && next.reading.lines[0] == ['y']
  {
    var file := ['x', 'y', '\n'] + rest;
    var t := Tail(1, [], false, true);
    assert ReadOnce(UNOPENED, Readable(|file|, file, true)) == Read(t, IoError);
    var data := Fetched(file, 1);
    assert data == ['y'] + ['\n'] + rest;
    var moved := t.(offset := 1 + |data|);
    AbsorbedLines(moved, data, 1, {moved.offset});
    LineThenRest([], ['y'], rest, 1, {moved.offset});
    assert [] + ['y'] == ['y'];
    DigestAtOnce(t, moved, data);
  }
}
