/**
 * The bounded-memory log tailer: it remembers an offset, the unfinished last line and whether it is
 * in the middle of a line it gave up on. Files hold valid UTF-8, so lines are compared as bytes.
 */
module LogTail {
  import opened Bytes

  const INITIAL_TAIL_BYTES: nat := 131072
  const MAX_READ_BYTES: nat := 262144
  const MAX_PENDING_BYTES: nat := 65536

  datatype Tail = Tail(offset: nat, pending: bytes, discarding: bool, initialized: bool)

  /**
   * What one call finds: no such file, a file that cannot be opened, or a file whose length is taken
   * first and whose content is read after that, possibly with an error.
   */
  datatype Observation = Missing | CannotOpen | Readable(length: nat, content: bytes, readFails: bool)

  /** The tailer after data came in, and the lines it completed. */
  datatype Digested = Digested(tail: Tail, lines: seq<bytes>)

  datatype Reading = Lines(lines: seq<bytes>, initial: bool) | IoError

  datatype Read = Read(tail: Tail, reading: Reading)

  const UNOPENED: Tail := Tail(0, [], false, false)

  // ---------------------------------------------------------------- one call

  /** The first newline, or -1. */
  function FirstNewline(s: bytes): (r: int)
    ensures -1 <= r < |s| && (r >= 0 ==> s[r] == '\n')
  {
    if s == [] then -1
    else if s[0] == '\n' then 0
    else
      var rest := FirstNewline(s[1..]);
      if rest < 0 then -1 else rest + 1
  }

  /** The last newline, or -1. */
  function LastNewline(s: bytes): (r: int)
    ensures -1 <= r < |s| && (r >= 0 ==> s[r] == '\n')
  {
    if s == [] then -1
    else if s[|s| - 1] == '\n' then |s| - 1
    else LastNewline(s[..|s| - 1])
  }

  /** `str::lines` takes one carriage return off with the newline. */
  function WithoutCr(line: bytes): (r: bytes)
    ensures |r| <= |line|
  {
    if line != [] && line[|line| - 1] == '\r' then line[..|line| - 1] else line
  }

  function TrimCrs(line: bytes): (r: bytes)
    ensures |r| <= |line|
  {
    if line != [] && line[|line| - 1] == '\r' then TrimCrs(line[..|line| - 1]) else line
  }

  /** The lines of a text, over-long ones left out, trailing carriage returns trimmed. */
  function Collect(text: bytes): seq<bytes>
    decreases |text|
  {
    if text == [] then []
    else
      var end := FirstNewline(text);
      var line := if end < 0 then text else WithoutCr(text[..end]);
      (if |line| <= MAX_PENDING_BYTES then [TrimCrs(line)] else [])
        + (if end < 0 then [] else Collect(text[end + 1..]))
  }

  /** Where a call starts reading, given the length it saw. */
  function Positioned(t: Tail, length: nat): Tail {
    if !t.initialized then
      t.(initialized := true, offset := if length <= INITIAL_TAIL_BYTES then 0 else length - INITIAL_TAIL_BYTES)
    else if length < t.offset then Tail(0, [], false, true)
    else t
  }

  /** The bytes a read from `offset` returns. */
  function Fetched(content: bytes, offset: nat): (r: bytes)
    ensures |r| <= MAX_READ_BYTES
    ensures offset <= |content| ==> r <= content[offset..]
  {
    if |content| <= offset then []
    else if |content| - offset <= MAX_READ_BYTES then content[offset..]
    else content[offset..offset + MAX_READ_BYTES]
  }

  predicate HasNewline(data: bytes) {
    FirstNewline(data) >= 0
  }

  /** The bytes past the first newline. */
  function AfterNewline(data: bytes): bytes
    requires HasNewline(data)
  {
    data[FirstNewline(data) + 1..]
  }

  /** Give up on a line that has outgrown the buffer. */
  function Capped(t: Tail): Tail {
    if |t.pending| > MAX_PENDING_BYTES then t.(pending := [], discarding := true) else t
  }

  function Absorbed(t: Tail, data: bytes): Digested {
    var all := t.pending + data;
    var last := LastNewline(all);
    Digested(Capped(t.(pending := all[last + 1..])), Collect(all[..last + 1]))
  }

  /** What is left of data once unwanted text is dropped; nothing is taken while its newline has not come. */
  datatype Skipped = Skipped(tail: Tail, taken: bool, rest: bytes)

  /** Drop what belongs to a line that is not wanted: the one cut by the first offset, or an outgrown one. */
  function Skip(t: Tail, data: bytes, prefix: bool): Skipped {
    if prefix && !HasNewline(data) then Skipped(t.(discarding := true), false, [])
    else
      var rest := if prefix then AfterNewline(data) else data;
      if !t.discarding then Skipped(t, true, rest)
      else if HasNewline(rest) then Skipped(t.(discarding := false), true, AfterNewline(rest))
      else Skipped(t, false, [])
  }

  /** Take in data read at the end of the file; `prefix` says that it starts in the middle of a line. */
  function Digest(t: Tail, data: bytes, prefix: bool): Digested {
    var skipped := Skip(t.(offset := t.offset + |data|), data, prefix);
    if !skipped.taken then Digested(skipped.tail, []) else Absorbed(skipped.tail, skipped.rest)
  }

  lemma DigestInSteps(t: Tail, data: bytes, prefix: bool, moved: Tail, skipped: Skipped)
    requires moved == t.(offset := t.offset + |data|) && skipped == Skip(moved, data, prefix)
    ensures Digest(t, data, prefix)
         == if skipped.taken then Absorbed(skipped.tail, skipped.rest) else Digested(skipped.tail, [])
  {
  }

  /** `read_new_lines` */
  function ReadOnce(t: Tail, seen: Observation): Read {
    match seen
    case Missing => Read(UNOPENED, Lines([], false))
    case CannotOpen => Read(t, IoError)
    case Readable(length, content, readFails) =>
      var initial := !t.initialized;
      var at := Positioned(t, length);
      if length <= at.offset then Read(at, Lines([], initial))
      else if readFails then Read(at, IoError)
      else
        var Digested(tail, lines) := Digest(at, Fetched(content, at.offset), initial && at.offset > 0);
        Read(tail, Lines(lines, initial))
  }

  class LogSource {
    var offset: nat
    var pending: bytes
    var discardingOversizedLine: bool
    var initialized: bool

    function Snapshot(): Tail
      reads this
    {
      Tail(offset, pending, discardingOversizedLine, initialized)
    }

    constructor ()
      ensures Snapshot() == UNOPENED
    {
      offset, pending, discardingOversizedLine, initialized := 0, [], false, false;
    }

    method ReadNewLines(seen: Observation) returns (reading: Reading)
      modifies this
      ensures Read(Snapshot(), reading) == ReadOnce(old(Snapshot()), seen)
    {
      if seen.Missing? {
        initialized, offset, pending, discardingOversizedLine := false, 0, [], false;
        return Lines([], false);
      }
      if seen.CannotOpen? {
        return IoError;
      }
      var length := seen.length;
      var initialRead := !initialized;
      var discardPartialPrefix := false;
      if initialRead {
        initialized := true;
        offset := if length <= INITIAL_TAIL_BYTES then 0 else length - INITIAL_TAIL_BYTES;
        discardPartialPrefix := offset > 0;
      } else if length < offset {
        offset, pending, discardingOversizedLine := 0, [], false;
      }
      assert Snapshot() == Positioned(old(Snapshot()), length);
      if length <= offset {
        return Lines([], initialRead);
      }
      if seen.readFails {
        return IoError;
      }
      ghost var at := Snapshot();
      assert at == Positioned(old(Snapshot()), length);
      assert discardPartialPrefix == (initialRead && at.offset > 0);
      var data := Fetched(seen.content, offset);
      var lines := TakeIn(data, discardPartialPrefix);
      assert Digested(Snapshot(), lines) == Digest(at, data, discardPartialPrefix);
      reading := Lines(lines, initialRead);
    }

    method TakeIn(data: bytes, discardPartialPrefix: bool) returns (lines: seq<bytes>)
      modifies this
      ensures Digested(Snapshot(), lines) == Digest(old(Snapshot()), data, discardPartialPrefix)
    {
      ghost var moved := Snapshot().(offset := offset + |data|);
      offset := offset + |data|;
      assert Snapshot() == moved;
      var taken, rest := SkipUnwanted(data, discardPartialPrefix);
      ghost var skipped := Skip(moved, data, discardPartialPrefix);
      assert skipped == Skipped(Snapshot(), taken, rest);
      DigestInSteps(old(Snapshot()), data, discardPartialPrefix, moved, skipped);
      if taken {
        lines := Buffer(rest);
      } else {
        lines := [];
      }
    }

    method SkipUnwanted(data: bytes, discardPartialPrefix: bool) returns (taken: bool, rest: bytes)
      modifies this
      ensures Skipped(Snapshot(), taken, rest) == Skip(old(Snapshot()), data, discardPartialPrefix)
    {
      rest := data;
      if discardPartialPrefix {
        var index := FirstNewline(data);
        if index < 0 {
          discardingOversizedLine := true;
          return false, [];
        }
        rest := data[index + 1..];
      }
      if discardingOversizedLine {
        var index := FirstNewline(rest);
        if index < 0 {
          return false, [];
        }
        rest := rest[index + 1..];
        discardingOversizedLine := false;
      }
      taken := true;
    }

    method Buffer(data: bytes) returns (lines: seq<bytes>)
      modifies this
      ensures Digested(Snapshot(), lines) == Absorbed(old(Snapshot()), data)
    {
      pending := pending + data;
      var completeEnd := LastNewline(pending);
      if completeEnd < 0 {
        assert pending[completeEnd + 1..] == pending;
        if |pending| > MAX_PENDING_BYTES {
          pending, discardingOversizedLine := [], true;
        }
        return [];
      }
      var complete := pending[..completeEnd + 1];
      pending := pending[completeEnd + 1..];
      if |pending| > MAX_PENDING_BYTES {
        pending, discardingOversizedLine := [], true;
      }
      lines := Collect(complete);
    }
  }
}
