/** Why a stream is refused: what is wrong with the bytes at hand, for every error and for nothing else. */
module StreamErrors {
  import opened Wrappers
  import opened Bytes
  import opened LineGrammar
  import opened RequestHead
  import opened HeadLaws
  import opened HeadFraming
  import opened StreamRewriter

  // ---------------------------------------------------------------- heads

  /** The lines of a complete head. */
  function LinesOf(head: bytes): (r: seq<bytes>)
    requires |head| >= 4
    ensures r != []
  {
    Split(head[..|head| - 4], CRLF)
  }

  ghost predicate BeginsWell(head: bytes)
    requires |head| >= 4
  {
    exists methodName, target, version :: IsRequestLine(LinesOf(head)[0], methodName, target, version)
  }

  ghost predicate GoesOnWell(head: bytes)
    requires |head| >= 4
  {
    forall i :: 1 <= i < |LinesOf(head)| ==> IsTrailer(LinesOf(head)[i])
  }

  /** What is wrong with a complete head, the first complaint first. */
  ghost predicate HeadWrong(head: bytes, e: HeadError)
    requires |head| >= 4
  {
    if !BeginsWell(head) then e == InvalidRequestLine
    else if !GoesOnWell(head) then e == InvalidHeader
    else RefusedFor(FieldsOf(HeadersIn(head)), e)
  }

  lemma RequestLineWrong(head: bytes)
    requires |head| >= 4
    ensures ValidRequestLine(Split(LinesOf(head)[0], [' '])) <==> BeginsWell(head)
  {
    var line := LinesOf(head)[0];
    if ValidRequestLine(Split(line, [' '])) {
      RequestLineReads(line, Split(line, [' ']));
    }
    if methodName, target, version :| IsRequestLine(line, methodName, target, version) {
      RequestLineIs(line, methodName, target, version);
    }
  }

  lemma IsHeaderLine(line: bytes)
    ensures ParseHeader(line).Some? <==> IsTrailer(line)
  {
    if ParseHeader(line).Some? {
      HeaderIs(line, ParseHeader(line).value);
    }
    if name, value :| IsField(line, name, value) {
      HeaderIs(line, Header(Lower(name), value, line));
    }
  }

  lemma HeaderWrong(head: bytes)
    requires |head| >= 4
    ensures AllHeaders(LinesOf(head)[1..]) <==> GoesOnWell(head)
  {
    var lines := LinesOf(head);
    forall i | 1 <= i < |lines|
      ensures ParseHeader(lines[1..][i - 1]).Some? <==> IsTrailer(lines[i])
    {
      IsHeaderLine(lines[i]);
    }
    assert forall j :: 0 <= j < |lines| - 1 ==> lines[1..][j] == lines[j + 1];
  }

  /** Exactly which error a complete head gives. */
  lemma HeadWrongIs(head: bytes, key: bytes, e: HeadError)
    requires |head| >= 4 && head[|head| - 4..] == CRLFCRLF
    ensures Rewrite(head, key) == Err(e) <==> HeadWrong(head, e)
  {
    assert [' '] == " ";
    RequestLineWrong(head);
    HeaderWrong(head);
    if BeginsWell(head) && GoesOnWell(head) {
      RefusedForIs(Split(LinesOf(head)[0], " ")[0], FieldsOf(HeadersIn(head)), e);
    }
  }

  // ---------------------------------------------------------------- one turn

  /** So many bytes end with a blank line, and no fewer do. */
  predicate HeadEnds(s: bytes, n: nat) {
    && EndsBlank(s, n)
    && forall k :: 0 <= k < n ==> !EndsBlank(s, k)
  }

  predicate EndsBlank(s: bytes, n: nat) {
    4 <= n <= |s| && s[n - 4..n] == CRLFCRLF
  }

  /** The first line, which is complete. */
  predicate FirstLine(s: bytes, line: bytes) {
    && line + CRLF <= s
    && forall k :: 0 <= k < |line| ==> !EndsLine(s, k)
  }

  predicate EndsLine(s: bytes, k: nat) {
    k + 2 <= |s| && s[k..k + 2] == CRLF
  }

  predicate NoLine(s: bytes) {
    forall k :: 0 <= k <= |s| ==> !EndsLine(s, k)
  }

  /** What is wrong with the bytes at hand. */
  ghost predicate Wrong(s: State, e: StreamError) {
    match e
    case HeadersTooLarge =>
      s.mode == Head && |s.pending| > 65536 && forall n :: 0 <= n <= 65536 ==> !EndsBlank(s.pending, n)
    case BadHead(cause) =>
      s.mode == Head && exists n :: 0 <= n <= 65536 && HeadEnds(s.pending, n) && HeadWrong(s.pending[..n], cause)
    case DataAfterClose => s.mode == Closed
    case ChunkLineTooLarge => s.mode == ChunkSize && NoLine(s.pending) && |s.pending| > 8192
    case InvalidChunkSize =>
      s.mode == ChunkSize && exists line :: FirstLine(s.pending, line) && forall n :: !IsSizeLine(line, n)
    case InvalidChunkTerminator => s.mode == ChunkCrlf && |s.pending| >= 2 && !(CRLF <= s.pending)
    case TrailersTooLarge =>
      && s.mode == ChunkTrailers
      && (if NoLine(s.pending) then s.trailerBytes + |s.pending| > 65536
          else exists line :: FirstLine(s.pending, line) && s.trailerBytes + |line| + 2 > 65536)
    case InvalidTrailer =>
      && s.mode == ChunkTrailers
      && exists line :: FirstLine(s.pending, line) && s.trailerBytes + |line| + 2 <= 65536
                        && line != [] && !IsTrailer(line)
    case ClosedDuringRequest => false
  }

  lemma BlankAt(s: bytes, n: nat)
    ensures EndsBlank(s, n) <==> n >= 4 && OccursAt(s, CRLFCRLF, n - 4)
  {
  }

  lemma HeadEndIs(s: bytes, n: nat)
    ensures HeadEnds(s, n) <==> n >= 4 && Find(s, CRLFCRLF) == n - 4
  {
    forall k: nat ensures EndsBlank(s, k) <==> k >= 4 && OccursAt(s, CRLFCRLF, k - 4) {
      BlankAt(s, k);
    }
    if HeadEnds(s, n) {
      assert Find(s, CRLFCRLF) + 4 >= n by { assert EndsBlank(s, Find(s, CRLFCRLF) + 4); }
    }
  }

  lemma LineAt(s: bytes, k: nat)
    ensures EndsLine(s, k) <==> OccursAt(s, CRLF, k)
  {
  }

  lemma FirstLineAt(s: bytes, line: bytes)
    ensures FirstLine(s, line) <==> Find(s, CRLF) == |line| && s[..|line|] == line
    ensures NoLine(s) <==> Find(s, CRLF) < 0
  {
    forall k: nat ensures EndsLine(s, k) <==> OccursAt(s, CRLF, k) {
      LineAt(s, k);
    }
    if line + CRLF <= s {
      assert s[|line|..|line| + 2] == CRLF && s[..|line|] == line;
    }
    if OccursAt(s, CRLF, |line|) && s[..|line|] == line {
      assert s[..|line| + 2] == line + CRLF;
    }
  }

  lemma HeadRaises(key: bytes, s: State, e: StreamError)
    requires s.mode == Head
    ensures (HeadStep(key, s).Raise? && HeadStep(key, s).error == e) <==> Wrong(s, e)
  {
    var marker := Find(s.pending, CRLFCRLF);
    forall n: nat ensures EndsBlank(s.pending, n) ==> 0 <= marker <= n - 4 {
      BlankAt(s.pending, n);
    }
    if marker >= 0 {
      var n := marker + 4;
      HeadEndIs(s.pending, n);
      assert EndsBlank(s.pending, n);
      forall k: nat | HeadEnds(s.pending, k) ensures k == n {
        HeadEndIs(s.pending, k);
      }
      var head := s.pending[..n];
      assert head[|head| - 4..] == CRLFCRLF;
      HeadStepAt(key, s, marker, head);
      if e.BadHead? {
        HeadWrongIs(head, key, e.cause);
      }
    }
  }

  /** There is one first line, up to the first CRLF, or none. */
  lemma OnlyLine(s: bytes, marker: int)
    requires marker == Find(s, CRLF)
    ensures NoLine(s) <==> marker < 0
    ensures forall line :: FirstLine(s, line) <==> 0 <= marker && line == s[..marker]
  {
    FirstLineAt(s, []);
    forall line ensures FirstLine(s, line) <==> 0 <= marker && line == s[..marker] {
      FirstLineAt(s, line);
    }
  }

  lemma SizeRaises(s: State, e: StreamError)
    requires s.mode == ChunkSize
    ensures (ChunkSizeStep(s).Raise? && ChunkSizeStep(s).error == e) <==> Wrong(s, e)
  {
    var marker := Find(s.pending, CRLF);
    OnlyLine(s.pending, marker);
    if marker >= 0 {
      NoSize(s.pending[..marker]);
      assert FirstLine(s.pending, s.pending[..marker]);
    }
  }

  lemma NoSize(line: bytes)
    ensures SizeOf(line).None? <==> forall n :: !IsSizeLine(line, n)
  {
    if SizeOf(line).Some? {
      SizeOfIs(line, SizeOf(line).value);
    } else {
      forall n ensures !IsSizeLine(line, n) {
        SizeOfIs(line, n);
      }
    }
  }

  /** What is wrong with a trailer line, so many bytes of trailers having been read. */
  predicate LineWrong(count: nat, line: bytes, e: StreamError) {
    if count + |line| + 2 > 65536 then e == TrailersTooLarge
    else line != [] && !ValidTrailer(line) && e == InvalidTrailer
  }

  lemma TrailerWrong(s: State, line: bytes, e: StreamError)
    requires s.mode == ChunkTrailers && !NoLine(s.pending) && FirstLine(s.pending, line)
    requires forall other :: FirstLine(s.pending, other) ==> other == line
    ensures Wrong(s, e) <==> LineWrong(s.trailerBytes, line, e)
  {
    TrailerIs(line);
  }

  lemma TrailerStepRaises(s: State, line: bytes, marker: nat, e: StreamError)
    requires marker == Find(s.pending, CRLF) && line == s.pending[..marker]
    ensures (TrailerStep(s).Raise? && TrailerStep(s).error == e) <==> LineWrong(s.trailerBytes, line, e)
  {
  }

  lemma TrailerRaises(s: State, e: StreamError)
    requires s.mode == ChunkTrailers
    ensures (TrailerStep(s).Raise? && TrailerStep(s).error == e) <==> Wrong(s, e)
  {
    var marker := Find(s.pending, CRLF);
    OnlyLine(s.pending, marker);
    if marker >= 0 {
      var line := s.pending[..marker];
      TrailerWrong(s, line, e);
      TrailerStepRaises(s, line, marker, e);
    }
  }

  /** A turn raises an error exactly when that is what is wrong with the bytes at hand. */
  lemma RaisesExactlyWhen(key: bytes, s: State, e: StreamError)
    ensures (Step(key, s).Raise? && Step(key, s).error == e) <==> Wrong(s, e)
  {
    match s.mode {
      case Head => HeadRaises(key, s, e);
      case ChunkSize => SizeRaises(s, e);
      case ChunkTrailers => TrailerRaises(s, e);
      case ChunkCrlf => assert |s.pending| >= 2 ==> (s.pending[..2] == CRLF <==> CRLF <= s.pending);
      case _ =>
    }
  }

  // ---------------------------------------------------------------- whole feeds

  /** The parser gets from one state to another in turns that emit. */
  ghost predicate Reaches(key: bytes, s: State, t: State)
    requires Valid(s)
    decreases |s.pending|
  {
    || s == t
    || (s.pending != [] && Step(key, s).Emit? && (StepProgress(key, s); Reaches(key, Step(key, s).next, t)))
  }

  /** A feed raises an error exactly when it gets to bytes with which that is wrong. */
  lemma {:induction false} RefusedExactlyWhen(key: bytes, s: State, e: StreamError)
    requires Valid(s)
    ensures (Run(key, s).Failed? && Run(key, s).error == e)
       <==> exists t :: Reaches(key, s, t) && t.pending != [] && Wrong(t, e)
    decreases |s.pending|
  {
    if s.pending != [] && Step(key, s).Emit? {
      StepProgress(key, s);
      RefusedExactlyWhen(key, Step(key, s).next, e);
    }
    RaisesExactlyWhen(key, s, e);
    assert Reaches(key, s, s);
  }
}
