/**
 * The incremental request rewriter: an eight-state parser that replaces every request head and copies
 * everything else. `Run` is what the loop computes; `RequestStreamRewriter` is the loop.
 */
module StreamRewriter {
  import opened Wrappers
  import opened Bytes
  import opened RequestHead
  import opened HeadLaws

  const MAX_HEADER_BYTES: nat := 65536
  const MAX_CHUNK_LINE_BYTES: nat := 8192

  datatype Mode = Head | Fixed | ChunkSize | ChunkData | ChunkCrlf | ChunkTrailers | Raw | Closed

  datatype StreamError =
    | HeadersTooLarge
    | BadHead(cause: HeadError)
    | DataAfterClose
    | ChunkLineTooLarge
    | InvalidChunkSize
    | InvalidChunkTerminator
    | TrailersTooLarge
    | InvalidTrailer
    | ClosedDuringRequest

  datatype State = State(pending: bytes, mode: Mode, remaining: nat, trailerBytes: nat, closeAfter: bool)

  /** One turn of the loop: wait for more bytes, consume some and emit some, or raise. */
  datatype Move = Wait | Emit(next: State, out: bytes) | Raise(left: State, error: StreamError)

  /** A whole `feed`: the state and output it ends with, or the state it leaves behind when it raises. */
  datatype Outcome = Done(state: State, out: bytes) | Failed(left: State, error: StreamError)

  const INITIAL: State := State([], Head, 0, 0, false)

  /** Bodies and chunks still to be copied are never empty. */
  predicate Valid(s: State) {
    s.mode in {Fixed, ChunkData} ==> s.remaining > 0
  }

  function Min(a: nat, b: nat): nat { if a < b then a else b }

  // ---------------------------------------------------------------- one turn

  /** Where a finished request leaves the parser. */
  function Finished(closeAfter: bool): Mode {
    if closeAfter then Closed else Head
  }

  function ModeAfterHead(f: Framed): Mode {
    match f.body
    case NoBody => Finished(f.closeAfter)
    case FixedBody => Fixed
    case ChunkedBody => ChunkSize
    case RawBody => Raw
  }

  function HeadStep(key: bytes, s: State): Move {
    var marker := Find(s.pending, CRLFCRLF);
    if marker < 0 then
      if |s.pending| > MAX_HEADER_BYTES then Raise(s, HeadersTooLarge) else Wait
    else if marker + 4 > MAX_HEADER_BYTES then Raise(s, HeadersTooLarge)
    else
      HeadRead(s.(pending := s.pending[marker + 4..]), Rewrite(s.pending[..marker + 4], key))
  }

  /** What reading a head, now consumed, leads to. */
  function HeadRead(s: State, r: Result<Framed, HeadError>): Move {
    if r.Err? then Raise(s, BadHead(r.error))
    else
      var f := r.value;
      Emit(s.(mode := ModeAfterHead(f), remaining := f.length, closeAfter := f.closeAfter), f.rewritten)
  }

  lemma HeadStepAt(key: bytes, s: State, marker: nat, head: bytes)
    requires Find(s.pending, CRLFCRLF) == marker && head == s.pending[..marker + 4]
    ensures HeadStep(key, s) == if marker + 4 > MAX_HEADER_BYTES then Raise(s, HeadersTooLarge)
                                else HeadRead(s.(pending := s.pending[marker + 4..]), Rewrite(head, key))
  {
  }

  /** Copy as much as is both owed and there. */
  function CopyStep(s: State, finished: Mode): Move {
    var take := Min(s.remaining, |s.pending|);
    Emit(s.(pending := s.pending[take..], remaining := s.remaining - take,
            mode := if s.remaining == take then finished else s.mode),
         s.pending[..take])
  }

  /** The size announced by a chunk-size line, extensions ignored. */
  function SizeOf(line: bytes): Option<nat> {
    var at := Find(line, ";");
    var text := Strip(if at < 0 then line else line[..at]);
    if AllHexDigits(text) then Some(HexadecimalValue(text)) else None
  }

  function ChunkSizeStep(s: State): Move {
    var marker := Find(s.pending, CRLF);
    if marker < 0 then
      if |s.pending| > MAX_CHUNK_LINE_BYTES then Raise(s, ChunkLineTooLarge) else Wait
    else
      var size := SizeOf(s.pending[..marker]);
      if size.None? then Raise(s, InvalidChunkSize)
      else
        var next := s.(pending := s.pending[marker + 2..], remaining := size.value);
        Emit(if size.value == 0 then next.(mode := ChunkTrailers, trailerBytes := 0) else next.(mode := ChunkData),
             s.pending[..marker + 2])
  }

  function ChunkCrlfStep(s: State): Move {
    if |s.pending| < 2 then Wait
    else if s.pending[..2] != CRLF then Raise(s, InvalidChunkTerminator)
    else Emit(s.(pending := s.pending[2..], mode := ChunkSize), CRLF)
  }

  /** A trailer field line: a token, a colon, anything. */
  predicate ValidTrailer(line: bytes) {
    var at := Find(line, ":");
    at >= 0 && IsToken(line[..at])
  }

  function TrailerStep(s: State): Move {
    var marker := Find(s.pending, CRLF);
    if marker < 0 then
      if s.trailerBytes + |s.pending| > MAX_HEADER_BYTES then Raise(s, TrailersTooLarge) else Wait
    else
      var counted := s.(trailerBytes := s.trailerBytes + marker + 2);
      var rest := s.pending[marker + 2..];
      if counted.trailerBytes > MAX_HEADER_BYTES then Raise(counted, TrailersTooLarge)
      else if marker == 0 then
        Emit(counted.(pending := rest, mode := Finished(s.closeAfter), trailerBytes := 0), CRLF)
      else if !ValidTrailer(s.pending[..marker]) then Raise(counted, InvalidTrailer)
      else Emit(counted.(pending := rest), s.pending[..marker + 2])
  }

  function Step(key: bytes, s: State): Move {
    match s.mode
    case Raw => Emit(s.(pending := []), s.pending)
    case Closed => Raise(s, DataAfterClose)
    case Head => HeadStep(key, s)
    case Fixed => CopyStep(s, Finished(s.closeAfter))
    case ChunkSize => ChunkSizeStep(s)
    case ChunkData => CopyStep(s, ChunkCrlf)
    case ChunkCrlf => ChunkCrlfStep(s)
    case ChunkTrailers => TrailerStep(s)
  }

  /** How many bytes a turn consumed. */
  function Consumed(s: State, next: State): int { |s.pending| - |next.pending| }

  lemma StepProgress(key: bytes, s: State)
    requires Valid(s) && s.pending != [] && Step(key, s).Emit?
    ensures var next := Step(key, s).next;
            && Valid(next)
            && 0 < Consumed(s, next) <= |s.pending|
            && next.pending == s.pending[Consumed(s, next)..]
    ensures s.mode != Head ==> Step(key, s).out == s.pending[..Consumed(s, Step(key, s).next)]
  {
    match s.mode {
      case Head => HeadProgress(key, s);
      case Fixed => CopyProgress(s, Finished(s.closeAfter));
      case ChunkData => CopyProgress(s, ChunkCrlf);
      case ChunkTrailers => TrailerProgress(s);
      case ChunkSize => ChunkSizeProgress(s);
      case _ =>
    }
  }

  lemma ChunkSizeProgress(s: State)
    requires s.pending != [] && ChunkSizeStep(s).Emit?
    ensures var next := ChunkSizeStep(s).next;
            && Valid(next) && 0 < Consumed(s, next) <= |s.pending|
            && next.pending == s.pending[Consumed(s, next)..]
            && ChunkSizeStep(s).out == s.pending[..Consumed(s, next)]
  {
  }

  lemma CopyProgress(s: State, finished: Mode)
    requires s.remaining > 0 && s.pending != [] && finished !in {Fixed, ChunkData}
    ensures var next := CopyStep(s, finished).next;
            && Valid(next)
            && 0 < Consumed(s, next) <= |s.pending|
            && next.pending == s.pending[Consumed(s, next)..]
            && CopyStep(s, finished).out == s.pending[..Consumed(s, next)]
  {
  }

  lemma TrailerProgress(s: State)
    requires s.mode == ChunkTrailers && TrailerStep(s).Emit?
    ensures var next := TrailerStep(s).next;
            && Valid(next)
            && 0 < Consumed(s, next) <= |s.pending|
            && next.pending == s.pending[Consumed(s, next)..]
            && TrailerStep(s).out == s.pending[..Consumed(s, next)]
  {
    var marker := Find(s.pending, CRLF);
    assert s.pending[marker..marker + 2] == CRLF;
  }

  lemma HeadProgress(key: bytes, s: State)
    requires HeadStep(key, s).Emit?
    ensures var next := HeadStep(key, s).next;
            && Valid(next)
            && 16 <= Consumed(s, next) <= |s.pending|
            && next.pending == s.pending[Consumed(s, next)..]
  {
    var head := s.pending[..Find(s.pending, CRLFCRLF) + 4];
    LengthOfFixed(head, key);
    RewriteGrowth(head, key);
  }

  lemma LengthOfFixed(head: bytes, key: bytes)
    requires Rewrite(head, key).Ok?
    ensures Rewrite(head, key).value.body.FixedBody? <==> Rewrite(head, key).value.length > 0
    ensures Rewrite(head, key).value.body.RawBody? ==> !Rewrite(head, key).value.closeAfter
  {
    var lines := Split(head[..|head| - 4], CRLF);
    PlanLength(Split(lines[0], " ")[0], FieldsOf(Headers(lines[1..])));
  }

  lemma PlanLength(methodName: bytes, fields: Fields)
    requires Decide(methodName, fields).Ok?
    ensures var p := Decide(methodName, fields).value;
            (p.body.FixedBody? <==> p.length > 0) && (p.body.RawBody? ==> !p.closeAfter)
  {
  }

  // ---------------------------------------------------------------- the whole loop

  function Prepend(out: bytes, outcome: Outcome): Outcome {
    match outcome
    case Done(s, rest) => Done(s, out + rest)
    case Failed(left, error) => outcome
  }

  /** Turns until nothing is pending, the parser waits, or an error is raised. */
  function Run(key: bytes, s: State): (r: Outcome)
    requires Valid(s)
    ensures r.Done? ==> Valid(r.state)
    decreases |s.pending|
  {
    if s.pending == [] then Done(s, [])
    else
      var move := Step(key, s);
      match move
      case Wait => Done(s, [])
      case Raise(left, error) => Failed(left, error)
      case Emit(next, out) =>
        StepProgress(key, s);
        Prepend(out, Run(key, next))
  }

  /** `feed(data)` */
  function FeedOnce(key: bytes, s: State, data: bytes): Outcome
    requires Valid(s)
  {
    Run(key, s.(pending := s.pending + data))
  }

  /** One `feed` call after another, stopping at the first that raises. */
  function FeedAll(key: bytes, s: State, chunks: seq<bytes>): (r: Outcome)
    requires Valid(s)
    ensures r.Done? ==> Valid(r.state)
    decreases |chunks|
  {
    if chunks == [] then Done(s, [])
    else
      match FeedOnce(key, s, chunks[0])
      case Failed(left, error) => Failed(left, error)
      case Done(next, out) => Prepend(out, FeedAll(key, next, chunks[1..]))
  }

  /** `finish()` accepts: the client closed between requests, or after one that ends the connection. */
  predicate Finishes(s: State) {
    s.mode in {Raw, Closed} || (s.mode == Head && s.pending == [])
  }

  // ---------------------------------------------------------------- the class

  datatype Verdict = Waiting | Emitted | Raised

  /** The loop body did that move: it took `before` to `after` and reported so. */
  predicate Performs(m: Move, before: State, after: State, verdict: Verdict, out: bytes, error: StreamError) {
    match m
    case Wait => verdict == Waiting && after == before
    case Emit(next, o) => verdict == Emitted && out == o && after == next
    case Raise(left, e) => verdict == Raised && error == e && after == left
  }

  /** A key as it is given: text, or bytes. */
  datatype ApiKey = Text(text: string) | Encoded(key: bytes)

  datatype KeyError = NotAscii | InvalidKey

  predicate IsAscii(text: string) {
    forall i :: 0 <= i < |text| ==> text[i] as int < 128
  }

  /** `text.encode("ascii")` */
  function Ascii(text: string): (r: Option<bytes>)
    ensures r.Some? <==> IsAscii(text)
    ensures r.Some? ==> r.value == text
  {
    if text == [] then Some([])
    else
      var most, last := Ascii(text[..|text| - 1]), text[|text| - 1];
      assert text == text[..|text| - 1] + [last];
      if most.None? || last as int >= 128 then None else Some(most.value + [last])
  }

  /** `validate_api_key` */
  function ValidateApiKey(given: ApiKey): (r: Result<bytes, KeyError>)
    ensures r.Ok? ==> ValidKey(r.value)
    ensures r == Err(NotAscii) <==> given.Text? && !IsAscii(given.text)
    ensures r.Ok? ==> if given.Text? then r.value == given.text else r.value == given.key
  {
    var key := if given.Text? then Ascii(given.text) else Some(given.key);
    if key.None? then Err(NotAscii)
    else if ValidKey(key.value) then Ok(key.value)
    else Err(InvalidKey)
  }

  /** A rewriter for the key given, unless it is refused. */
  method CreateRewriter(given: ApiKey) returns (r: Result<RequestStreamRewriter, KeyError>)
    ensures match ValidateApiKey(given)
            case Err(error) => r == Err(error)
            case Ok(key) => r.Ok? && fresh(r.value) && r.value.apiKey == key && r.value.Current() == INITIAL
  {
    match ValidateApiKey(given) {
      case Err(error) =>
        return Err(error);
      case Ok(key) =>
        var rewriter := new RequestStreamRewriter(key);
        return Ok(rewriter);
    }
  }

  class RequestStreamRewriter {
    const apiKey: bytes
    var pending: bytes
    var mode: Mode
    var remaining: nat
    var trailerBytes: nat
    var closeAfter: bool

    function Current(): State
      reads this
    {
      State(pending, mode, remaining, trailerBytes, closeAfter)
    }

    constructor (apiKey: bytes)
      ensures this.apiKey == apiKey && Current() == INITIAL
    {
      this.apiKey := apiKey;
      pending, mode, remaining, trailerBytes, closeAfter := [], Head, 0, 0, false;
    }

    method Feed(data: bytes) returns (r: Result<bytes, StreamError>)
      requires Valid(Current())
      modifies this
      ensures match FeedOnce(apiKey, old(Current()), data)
              case Done(s, out) => r == Ok(out) && Current() == s
              case Failed(left, error) => r == Err(error) && Current() == left
    {
      pending := pending + data;
      ghost var start := Current();
      var output: bytes := [];
      while pending != []
        invariant Valid(Current())
        invariant Run(apiKey, start) == Prepend(output, Run(apiKey, Current()))
        decreases |pending|
      {
        ghost var before := Current();
        var move, out, error := Turn();
        match move {
          case Waiting => break;
          case Raised => return Err(error);
          case Emitted =>
            StepProgress(apiKey, before);
            PrependTwice(output, out, Run(apiKey, Current()));
            output := output + out;
        }
      }
      assert Run(apiKey, Current()) == Done(Current(), []);
      assert output + [] == output;
      return Ok(output);
    }

    /** The body of the loop. */
    method Turn() returns (move: Verdict, out: bytes, error: StreamError)
      requires Valid(Current()) && pending != []
      modifies this
      ensures Performs(Step(apiKey, old(Current())), old(Current()), Current(), move, out, error)
    {
      out, error := [], HeadersTooLarge;
      match mode {
        case Raw =>
          out := pending;
          pending := [];
          return Emitted, out, error;
        case Closed =>
          return Raised, out, DataAfterClose;
        case Head =>
          move, out, error := HeadTurn();
        case Fixed =>
          var take := Min(remaining, |pending|);
          out := pending[..take];
          pending := pending[take..];
          remaining := remaining - take;
          if remaining == 0 {
            mode := if closeAfter then Closed else Head;
          }
          return Emitted, out, error;
        case ChunkSize =>
          move, out, error := ChunkSizeTurn();
        case ChunkData =>
          var take := Min(remaining, |pending|);
          out := pending[..take];
          pending := pending[take..];
          remaining := remaining - take;
          if remaining == 0 {
            mode := ChunkCrlf;
          }
          return Emitted, out, error;
        case ChunkCrlf =>
          if |pending| < 2 {
            return Waiting, out, error;
          }
          if pending[..2] != CRLF {
            return Raised, out, InvalidChunkTerminator;
          }
          pending := pending[2..];
          mode := ChunkSize;
          return Emitted, CRLF, error;
        case ChunkTrailers =>
          move, out, error := TrailerTurn();
      }
    }

    method HeadTurn() returns (move: Verdict, out: bytes, error: StreamError)
      modifies this
      ensures Performs(HeadStep(apiKey, old(Current())), old(Current()), Current(), move, out, error)
    {
      out, error := [], HeadersTooLarge;
      var marker := Find(pending, CRLFCRLF);
      if marker < 0 {
        if |pending| > MAX_HEADER_BYTES {
          return Raised, out, HeadersTooLarge;
        }
        return Waiting, out, error;
      }
      var end := marker + 4;
      if end > MAX_HEADER_BYTES {
        return Raised, out, HeadersTooLarge;
      }
      HeadStepAt(apiKey, Current(), marker, pending[..end]);
      move, out, error := TakeHead(end);
    }

    method TakeHead(end: nat) returns (move: Verdict, out: bytes, error: StreamError)
      requires end <= |pending|
      modifies this
      ensures Performs(HeadRead(old(Current()).(pending := old(pending)[end..]), Rewrite(old(pending)[..end], apiKey)),
                       old(Current()), Current(), move, out, error)
    {
      var framed := RewriteAndFrame(pending[..end], apiKey);
      pending := pending[end..];
      move, out, error := EnterBody(framed);
    }

    method EnterBody(framed: Result<Framed, HeadError>) returns (move: Verdict, out: bytes, error: StreamError)
      modifies this
      ensures Performs(HeadRead(old(Current()), framed), old(Current()), Current(), move, out, error)
    {
      if framed.Err? {
        return Raised, [], BadHead(framed.error);
      }
      var f := framed.value;
      remaining, closeAfter := f.length, f.closeAfter;
      match f.body {
        case NoBody => mode := if closeAfter then Closed else Head;
        case FixedBody => mode := Fixed;
        case ChunkedBody => mode := ChunkSize;
        case RawBody => mode := Raw;
      }
      return Emitted, f.rewritten, HeadersTooLarge;
    }

    method ChunkSizeTurn() returns (move: Verdict, out: bytes, error: StreamError)
      modifies this
      ensures Performs(ChunkSizeStep(old(Current())), old(Current()), Current(), move, out, error)
    {
      out, error := [], InvalidChunkSize;
      var marker := Find(pending, CRLF);
      if marker < 0 {
        if |pending| > MAX_CHUNK_LINE_BYTES {
          return Raised, out, ChunkLineTooLarge;
        }
        return Waiting, out, error;
      }
      var size := SizeOf(pending[..marker]);
      if size.None? {
        return Raised, out, InvalidChunkSize;
      }
      remaining := size.value;
      out := pending[..marker + 2];
      pending := pending[marker + 2..];
      if remaining == 0 {
        mode := ChunkTrailers;
        trailerBytes := 0;
      } else {
        mode := ChunkData;
      }
      return Emitted, out, error;
    }

    method TrailerTurn() returns (move: Verdict, out: bytes, error: StreamError)
      modifies this
      ensures Performs(TrailerStep(old(Current())), old(Current()), Current(), move, out, error)
    {
      out, error := [], TrailersTooLarge;
      var marker := Find(pending, CRLF);
      if marker < 0 {
        if trailerBytes + |pending| > MAX_HEADER_BYTES {
          return Raised, out, TrailersTooLarge;
        }
        return Waiting, out, error;
      }
      var line := pending[..marker + 2];
      assert pending[marker..marker + 2] == CRLF;
      assert line[..marker] == pending[..marker] && (marker == 0 <==> line == CRLF);
      trailerBytes := trailerBytes + marker + 2;
      if trailerBytes > MAX_HEADER_BYTES {
        return Raised, out, TrailersTooLarge;
      }
      if line != CRLF {
        var name := Find(line[..marker], ":");
        if name < 0 || !IsToken(line[..marker][..name]) {
          return Raised, out, InvalidTrailer;
        }
      }
      pending := pending[marker + 2..];
      if line == CRLF {
        mode := if closeAfter then Closed else Head;
        trailerBytes := 0;
      }
      return Emitted, line, error;
    }

    /** `finish()`: raises unless the stream may end here. */
    method Finish() returns (r: Result<(), StreamError>)
      ensures r == if Finishes(Current()) then Ok(()) else Err(ClosedDuringRequest)
    {
      if mode == Raw || mode == Closed {
        return Ok(());
      }
      if mode != Head || pending != [] {
        return Err(ClosedDuringRequest);
      }
      return Ok(());
    }
  }

  lemma PrependTwice(a: bytes, b: bytes, outcome: Outcome)
    ensures Prepend(a, Prepend(b, outcome)) == Prepend(a + b, outcome)
  {
    if outcome.Done? {
      assert a + (b + outcome.out) == (a + b) + outcome.out;
    }
  }
}
