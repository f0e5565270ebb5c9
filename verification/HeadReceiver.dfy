/** Reading a head off a socket: chunks until a blank line, within a size and a deadline. */
module HeadReceiver {
  import opened Wrappers
  import opened Bytes
  import opened RequestHead
  import opened StreamRewriter
  import opened Fragmentation
  import StreamErrors

  const RECEIVE_SIZE: nat := 4096

  /** Why no more chunks came: the peer closed, or the deadline passed. */
  datatype Ending = PeerClosed | TimedOut

  datatype ReceiveError = HeadTooLarge | Ended(ending: Ending)

  /** The head, and what was received beyond it. */
  datatype Received = Received(head: bytes, rest: bytes)

  /** What receiving comes to, judged by all the bytes that would come. */
  datatype Verdict = HeadOf(head: bytes) | Rejected(error: ReceiveError)

  function VerdictOn(all: bytes, ending: Ending): Verdict {
    var marker := Find(all, CRLFCRLF);
    if 0 <= marker && marker + 4 <= MAX_HEADER_BYTES then HeadOf(all[..marker + 4])
    else if 0 <= marker || |all| > MAX_HEADER_BYTES then Rejected(HeadTooLarge)
    else Rejected(Ended(ending))
  }

  /** Exactly when the bytes come to a head: a beginning within the limit that ends with the first blank line. */
  lemma HeadVerdictIs(all: bytes, ending: Ending, head: bytes)
    ensures VerdictOn(all, ending) == HeadOf(head)
       <==> head <= all && |head| <= 65536 && StreamErrors.HeadEnds(all, |head|)
  {
    StreamErrors.HeadEndIs(all, |head|);
    assert head <= all <==> |head| <= |all| && all[..|head|] == head;
  }

  /** And when not: too many bytes without a blank line, or too few. */
  lemma RefusalIs(all: bytes, ending: Ending)
    ensures VerdictOn(all, ending) == Rejected(HeadTooLarge)
       <==> |all| > 65536 && forall n :: 0 <= n <= 65536 ==> !StreamErrors.EndsBlank(all, n)
    ensures VerdictOn(all, ending) == Rejected(Ended(ending))
       <==> |all| <= 65536 && forall n :: 0 <= n <= |all| ==> !StreamErrors.EndsBlank(all, n)
  {
    var marker := Find(all, CRLFCRLF);
    forall n: nat ensures StreamErrors.EndsBlank(all, n) ==> 0 <= marker <= n - 4 {
      StreamErrors.BlankAt(all, n);
    }
    if marker >= 0 {
      StreamErrors.BlankAt(all, marker + 4);
    }
  }

  predicate Agrees(r: Result<Received, ReceiveError>, all: bytes, ending: Ending) {
    match r
    case Ok(received) =>
      && VerdictOn(all, ending) == HeadOf(received.head)
      && received.head + received.rest <= all
      && |received.head + received.rest| <= MAX_HEADER_BYTES + RECEIVE_SIZE
    case Err(error) => VerdictOn(all, ending) == Rejected(error)
  }

  /**
   * `receive_request_head` and `recv_headers`: whatever the chunks, the outcome is that of the bytes
   * they add up to, and what was read past the head is handed on.
   */
  method ReceiveHead(chunks: seq<bytes>, ending: Ending) returns (r: Result<Received, ReceiveError>)
    requires forall c :: c in chunks ==> 1 <= |c| <= RECEIVE_SIZE
    ensures Agrees(r, Concat(chunks), ending)
  {
    var data: bytes := [];
    var next := 0;
    assert chunks[..0] == [];
    while true
      invariant 0 <= next <= |chunks| && data == Concat(chunks[..next])
      invariant |data| <= MAX_HEADER_BYTES + RECEIVE_SIZE
      decreases |chunks| - next
    {
      PrefixOfAll(chunks, next);
      ghost var more := Concat(chunks[next..]);
      var marker := Find(data, CRLFCRLF);
      if marker >= 0 {
        MarkerSettles(data, more, ending);
        var end := marker + 4;
        if end > MAX_HEADER_BYTES {
          return Err(HeadTooLarge);
        }
        assert data[..end] + data[end..] == data <= data + more;
        return Ok(Received(data[..end], data[end..]));
      }
      if |data| > MAX_HEADER_BYTES {
        ExcessSettles(data, more, ending);
        return Err(HeadTooLarge);
      }
      if next == |chunks| {
        assert chunks[..next] == chunks;
        return Err(Ended(ending));
      }
      OneMoreChunk(chunks, next);
      data := data + chunks[next];
      next := next + 1;
    }
  }

  /** Once a marker is in, what follows cannot change the verdict. */
  lemma MarkerSettles(data: bytes, more: bytes, ending: Ending)
    requires Find(data, CRLFCRLF) >= 0
    ensures VerdictOn(data + more, ending) == VerdictOn(data, ending)
  {
    FindExtend(data, more, CRLFCRLF);
    SliceAppend(data, more, Find(data, CRLFCRLF) + 4);
  }

  /** Nor can it once there are too many bytes without one. */
  lemma ExcessSettles(data: bytes, more: bytes, ending: Ending)
    requires Find(data, CRLFCRLF) < 0 && |data| > MAX_HEADER_BYTES
    ensures VerdictOn(data + more, ending) == Rejected(HeadTooLarge)
  {
    FindExtend(data, more, CRLFCRLF);
  }

  lemma PrefixOfAll(chunks: seq<bytes>, n: nat)
    requires n <= |chunks|
    ensures Concat(chunks) == Concat(chunks[..n]) + Concat(chunks[n..])
  {
    assert chunks == chunks[..n] + chunks[n..];
    ConcatOfTwo(chunks[..n], chunks[n..]);
  }

  lemma {:induction false} ConcatOfTwo(a: seq<bytes>, b: seq<bytes>)
    ensures Concat(a + b) == Concat(a) + Concat(b)
  {
    if a == [] {
      assert a + b == b;
    } else {
      assert (a + b)[1..] == a[1..] + b;
      ConcatOfTwo(a[1..], b);
    }
  }

  lemma OneMoreChunk(chunks: seq<bytes>, n: nat)
    requires n < |chunks|
    ensures Concat(chunks[..n + 1]) == Concat(chunks[..n]) + chunks[n]
  {
    assert chunks[..n + 1] == chunks[..n] + [chunks[n]];
    ConcatOfTwo(chunks[..n], [chunks[n]]);
  }

  /** Receiver and rewriter agree: where the one finds a head the other would take it, and likewise reject or wait. */
  lemma SameHeadAsRewriter(key: bytes, s: State, ending: Ending)
    requires s.mode == Head
    ensures match VerdictOn(s.pending, ending)
            case HeadOf(head) => HeadStep(key, s) == HeadRead(s.(pending := s.pending[|head|..]), Rewrite(head, key))
            case Rejected(HeadTooLarge) => HeadStep(key, s) == Raise(s, HeadersTooLarge)
            case Rejected(Ended(_)) => HeadStep(key, s) == Wait
  {
  }
}
