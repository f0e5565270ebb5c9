/** How much one `feed` can emit: the arithmetic behind the relay's burst allowance. */
module BurstBound {
  import opened Wrappers
  import opened Bytes
  import opened RequestHead
  import opened HeadLaws
  import opened StreamRewriter
  import opened Fragmentation
  import opened LineGrammar
  import opened MessageGrammar

  const TRANSFORM_READ_SIZE: nat := 1024
  const TRANSFORM_BURST_BYTES: nat := 131072

  /** The longest key with which the relay can never overrun its burst allowance. */
  const SAFE_KEY_BYTES: nat := 1000

  /** A settled parser never holds more than one head's worth of bytes. */
  lemma SettledIsSmall(key: bytes, s: State)
    requires Valid(s) && Settled(key, s)
    ensures |s.pending| <= MAX_HEADER_BYTES
  {
  }

  /** How many heads a run completes. */
  function HeadsCompleted(key: bytes, s: State): nat
    requires Valid(s)
    decreases |s.pending|
  {
    if s.pending == [] || !Step(key, s).Emit? then 0
    else
      StepProgress(key, s);
      (if s.mode == Head then 1 else 0) + HeadsCompleted(key, Step(key, s).next)
  }

  /** How many of them are long enough to grow by the extra byte. */
  function ExtrasCompleted(key: bytes, s: State): nat
    requires Valid(s)
    decreases |s.pending|
  {
    if s.pending == [] || !Step(key, s).Emit? then 0
    else
      StepProgress(key, s);
      (if s.mode == Head then Extra(HeadOf(s)) else 0) + ExtrasCompleted(key, Step(key, s).next)
  }

  /** The head a turn in head mode reads. */
  function HeadOf(s: State): bytes {
    var marker := Find(s.pending, CRLFCRLF);
    if marker < 0 then [] else s.pending[..marker + 4]
  }

  lemma HeadTurn(key: bytes, s: State)
    requires HeadStep(key, s).Emit?
    ensures Consumed(s, HeadStep(key, s).next) == |HeadOf(s)| && 16 <= |HeadOf(s)| <= MAX_HEADER_BYTES
    ensures |HeadStep(key, s).out| <= |HeadOf(s)| + |key| + 24 + Extra(HeadOf(s))
  {
    RewriteGrowth(HeadOf(s), key);
  }

  lemma {:induction false} HeadsAreLong(key: bytes, s: State)
    requires Valid(s)
    ensures 16 * HeadsCompleted(key, s) + 18 * ExtrasCompleted(key, s) <= |s.pending|
    decreases |s.pending|
  {
    if s.pending != [] && Step(key, s).Emit? {
      StepProgress(key, s);
      if s.mode == Head {
        HeadTurn(key, s);
      }
      HeadsAreLong(key, Step(key, s).next);
    }
  }

  /** Only heads grow, and each by at most the key, 24 bytes and its extra byte. */
  lemma {:induction false} OutputGrowth(key: bytes, s: State)
    requires Valid(s) && Run(key, s).Done?
    ensures |Run(key, s).out| + |Run(key, s).state.pending|
         <= |s.pending| + HeadsCompleted(key, s) * (|key| + 24) + ExtrasCompleted(key, s)
    decreases |s.pending|
  {
    if s.pending != [] && Step(key, s) != Wait {
      var next := Step(key, s).next;
      StepProgress(key, s);
      StepGrowth(key, s);
      OutputGrowth(key, next);
      RunUnfolds(key, s, next, Step(key, s).out);
      var here, later, each := if s.mode == Head then 1 else 0, HeadsCompleted(key, next), |key| + 24;
      Distribute(here, later, each);
    }
  }

  lemma Distribute(a: nat, b: nat, k: nat)
    ensures (a + b) * k == a * k + b * k
  {
  }

  lemma StepGrowth(key: bytes, s: State)
    requires Valid(s) && s.pending != [] && Step(key, s).Emit?
    ensures var next := Step(key, s).next;
            |Step(key, s).out|
            <= Consumed(s, next) + if s.mode == Head then |key| + 24 + Extra(HeadOf(s)) else 0
  {
    StepProgress(key, s);
    if s.mode == Head {
      HeadTurn(key, s);
    }
  }

  /** The first turn after new bytes reach a settled parser ends inside the new bytes. */
  lemma FirstTurnReachesNewBytes(key: bytes, s: State, d: bytes)
    requires Valid(s) && Settled(key, s) && d != [] && Step(key, With(s, d)).Emit?
    ensures Consumed(With(s, d), Step(key, With(s, d)).next) > |s.pending|
  {
    if s.pending != [] {
      match s.mode {
        case Head => HeadReachesNewBytes(key, s, d);
        case ChunkSize => SizeReachesNewBytes(s, d);
        case ChunkTrailers => TrailerReachesNewBytes(s, d);
        case _ =>
      }
    } else {
      StepProgress(key, With(s, d));
    }
  }

  lemma HeadReachesNewBytes(key: bytes, s: State, d: bytes)
    requires HeadStep(key, s) == Wait && HeadStep(key, With(s, d)).Emit?
    ensures Consumed(With(s, d), HeadStep(key, With(s, d)).next) > |s.pending|
  {
    FindExtend(s.pending, d, CRLFCRLF);
  }

  lemma SizeReachesNewBytes(s: State, d: bytes)
    requires ChunkSizeStep(s) == Wait && ChunkSizeStep(With(s, d)).Emit?
    ensures Consumed(With(s, d), ChunkSizeStep(With(s, d)).next) > |s.pending|
  {
    FindExtend(s.pending, d, CRLF);
  }

  lemma TrailerReachesNewBytes(s: State, d: bytes)
    requires TrailerStep(s) == Wait && TrailerStep(With(s, d)).Emit?
    ensures Consumed(With(s, d), TrailerStep(With(s, d)).next) > |s.pending|
  {
    FindExtend(s.pending, d, CRLF);
    TrailerTaken(With(s, d), Find(With(s, d).pending, CRLF));
  }

  /** So many heads and extras can be completed by new bytes, when the first of them may have begun before. */
  predicate Fit(heads: nat, extras: nat, read: nat)
    requires read > 0
  {
    && extras <= heads
    && (heads > 0 ==> 16 * (heads - 1) <= read - 1)
    && (extras > 0 ==> 16 * (heads - 1) + 18 * (extras - 1) <= read - 1)
  }

  /**
   * What new bytes complete: after the first turn, which ends inside them, there is room left for a number
   * of heads of at least 16 bytes and of extras of at least 18 more.
   */
  lemma HeadsPerFeed(key: bytes, s: State, d: bytes)
    requires Valid(s) && Settled(key, s) && d != []
    ensures Fit(HeadsCompleted(key, With(s, d)), ExtrasCompleted(key, With(s, d)), |d|)
  {
    var all := With(s, d);
    if Step(key, all).Emit? {
      StepProgress(key, all);
      FirstTurnReachesNewBytes(key, s, d);
      HeadsAreLong(key, Step(key, all).next);
      ExtrasAreHeads(key, Step(key, all).next);
    }
  }

  lemma {:induction false} ExtrasAreHeads(key: bytes, s: State)
    requires Valid(s)
    ensures ExtrasCompleted(key, s) <= HeadsCompleted(key, s)
    decreases |s.pending|
  {
    if s.pending != [] && Step(key, s).Emit? {
      StepProgress(key, s);
      ExtrasAreHeads(key, Step(key, s).next);
    }
  }

  /** A head that new bytes complete was not yet complete before, so less than a whole head was pending. */
  lemma RoomForTheFirstHead(key: bytes, s: State, d: bytes)
    requires Valid(s) && Settled(key, s) && d != [] && HeadsCompleted(key, With(s, d)) == 64
    requires |d| <= TRANSFORM_READ_SIZE
    ensures |s.pending| < MAX_HEADER_BYTES
  {
    var all := With(s, d);
    StepProgress(key, all);
    FirstTurnReachesNewBytes(key, s, d);
    if all.mode == Head {
      HeadTurn(key, all);
    } else {
      HeadsAreLong(key, Step(key, all).next);
      assert false;
    }
  }

  /** One read's worth of bytes completes at most 64 heads. */
  lemma BurstBounded(key: bytes, s: State, d: bytes)
    requires Valid(s) && Settled(key, s) && |d| <= TRANSFORM_READ_SIZE && FeedOnce(key, s, d).Done?
    ensures HeadsCompleted(key, With(s, d)) <= 64
    ensures |FeedOnce(key, s, d).out| <= |s.pending| + |d| + 64 * (|key| + 25)
    ensures |FeedOnce(key, s, d).state.pending| <= MAX_HEADER_BYTES
    ensures |key| <= SAFE_KEY_BYTES ==> |FeedOnce(key, s, d).out| <= |d| + TRANSFORM_BURST_BYTES
  {
    RunSettles(key, With(s, d));
    SettledIsSmall(key, s);
    SettledIsSmall(key, FeedOnce(key, s, d).state);
    if d == [] {
      assert With(s, d) == s;
    } else {
      var heads, extras := HeadsCompleted(key, With(s, d)), ExtrasCompleted(key, With(s, d));
      OutputGrowth(key, With(s, d));
      HeadsPerFeed(key, s, d);
      if heads == 64 {
        RoomForTheFirstHead(key, s, d);
      }
      Allowance(heads, extras, |d|, |key|, |s.pending|);
    }
  }

  /** The arithmetic: 64 heads leave no room for extras, 63 heads cannot use up the allowance. */
  lemma Allowance(heads: nat, extras: nat, read: nat, key: nat, pending: nat)
    requires 0 < read <= 1024 && pending <= 65536 && (heads == 64 ==> pending < 65536)
    requires Fit(heads, extras, read)
    ensures heads <= 64
    ensures heads * (key + 24) + extras <= 64 * (key + 25)
    ensures key <= 1000 ==> pending + heads * (key + 24) + extras <= 131072
  {
    Monotone(heads, 64, key + 24);
    if key <= 1000 {
      if heads < 64 {
        Monotone(heads, 63, key + 24);
      }
      assert 63 * (key + 24) <= 63 * 1024 && 64 * (key + 24) <= 64 * 1024;
    }
  }

  lemma Monotone(a: nat, b: nat, k: nat)
    requires a <= b
    ensures a * k <= b * k
  {
    Distribute(a, b - a, k);
  }

  // ---------------------------------------------------------------- long keys

  function Repeat(m: Message, n: nat): seq<Message> {
    if n == 0 then [] else [m] + Repeat(m, n - 1)
  }

  lemma ThreeWords(a: bytes, b: bytes, c: bytes, sep: byte)
    requires sep !in a && sep !in b && sep !in c
    ensures Split(a + [sep] + (b + [sep] + c), [sep]) == [a, b, c]
  {
    WordSplits(a, sep, b + [sep] + c);
    WordSplits(b, sep, c);
    OneWord(c, sep);
    assert [b] + [c] == [b, c] && [a] + [b, c] == [a, b, c];
  }

  lemma OneWord(word: bytes, sep: byte)
    requires sep !in word
    ensures Split(word, [sep]) == [word]
  {
    FindAbsent(word, sep, [sep]);
  }

  /** The request line for a target word. */
  function RequestLine(word: bytes): bytes {
    ['A'] + [' '] + (word + [' '] + "HTTP/1.1")
  }

  lemma RequestLineIsValid(word: bytes)
    requires word != [] && ' ' !in word && '\r' !in word
    ensures var line := RequestLine(word);
            && |line| == |word| + 11 && ValidRequestLine(Split(line, " ")) && Split(line, " ")[0] == "A"
            && Find(line, CRLF) < 0
  {
    var line := RequestLine(word);
    assert " " == [' '] && "A" == ['A'];
    ThreeWords(['A'], word, "HTTP/1.1", ' ');
    assert forall i :: 0 <= i < 8 ==> "HTTP/1.1"[i] != '\r';
    assert '\r' !in line;
    FindAbsent(line, '\r', CRLF);
  }

  /** A request without headers comes out with one header more: the local key. */
  lemma BareRequest(key: bytes, line: bytes)
    requires ValidKey(key) && 0 < |line| <= MAX_HEADER_BYTES - 4 && Find(line, CRLF) < 0
    requires ValidRequestLine(Split(line, " ")) && Split(line, " ")[0] == "A"
    ensures GoodMessage(key, Message(Render(line, []), Empty)) && |Render(line, [])| == |line| + 4
    ensures var f := Rewrite(Render(line, []), key).value;
            !IsLast(f) && |f.rewritten| == |line| + 28 + |key|
  {
    var p := Plan({}, false, NoBody, 0, false);
    NoFields();
    RewriteRendered(line, [], p, key);
    RenderReadsBack(line, []);
    JoinLength(line, []);
    var auth := AuthorizationHeader(key);
    NewHeadersOfNone(key);
    JoinLength(line, [auth]);
    assert [auth][..0] == [];
  }

  lemma NewHeadersOfNone(key: bytes)
    ensures NewHeaders([], {}, false, key) == [AuthorizationHeader(key)]
    ensures |AuthorizationHeader(key).line| == |key| + 22
  {
  }

  lemma NoFields()
    ensures Decide("A", FieldsOf([])) == Ok(Plan({}, false, NoBody, 0, false))
  {
    assert Items([]) == [] && TokenSet([]) == Some({});
    assert Upper("A") == "A";
  }

  lemma OneMore(key: bytes, m: Message, ms: seq<Message>)
    requires Rewrite(m.head, key).Ok? && m.body == Empty
    ensures |Wire([m] + ms)| == |m.head| + |Wire(ms)|
    ensures |Forwarded(key, [m] + ms)| == |Rewrite(m.head, key).value.rewritten| + |Forwarded(key, ms)|
  {
    assert ([m] + ms)[1..] == ms;
    assert WireBody(m.body) == [];
  }

  function Times(n: nat, k: nat): nat {
    if n == 0 then 0 else k + Times(n - 1, k)
  }

  lemma {:induction false} TimesIs(n: nat, k: nat)
    ensures Times(n, k) == n * k
  {
    if n > 0 {
      TimesIs(n - 1, k);
    }
  }

  /** A message that any stream may follow. */
  ghost predicate CanPrecede(key: bytes, m: Message) {
    forall others :: GoodStream(key, others) ==> GoodStream(key, [m] + others)
  }

  lemma NotLastCanPrecede(key: bytes, m: Message)
    requires GoodMessage(key, m) && !IsLast(Rewrite(m.head, key).value)
    ensures CanPrecede(key, m)
  {
    forall others | GoodStream(key, others) ensures GoodStream(key, [m] + others) {
      GoodCons(key, m, others);
    }
  }

  /** What holds of no message, and survives one more in front, holds of any number of them. */
  lemma {:induction false} RepeatInduction(holds: seq<Message> -> bool, m: Message, n: nat)
    requires holds([]) && forall others :: holds(others) ==> holds([m] + others)
    ensures holds(Repeat(m, n))
  {
    if n > 0 {
      RepeatInduction(holds, m, n - 1);
    }
  }

  lemma RepeatedAreGood(key: bytes, m: Message, n: nat)
    requires CanPrecede(key, m)
    ensures GoodStream(key, Repeat(m, n))
  {
    var good := (ms: seq<Message>) => GoodStream(key, ms);
    assert good([]) && forall others :: good(others) ==> good([m] + others);
    RepeatInduction(good, m, n);
    assert good(Repeat(m, n));
  }

  /** So many messages, each so long, and so long once rewritten. */
  predicate Sized(key: bytes, ms: seq<Message>, before: nat, after: nat) {
    |Wire(ms)| == Times(|ms|, before) && |Forwarded(key, ms)| == Times(|ms|, after)
  }

  lemma OneMoreSized(key: bytes, m: Message, ms: seq<Message>, before: nat, after: nat)
    requires Rewrite(m.head, key).Ok? && m.body == Empty && Sized(key, ms, before, after)
    requires |m.head| == before && |Rewrite(m.head, key).value.rewritten| == after
    ensures Sized(key, [m] + ms, before, after)
  {
    OneMore(key, m, ms);
    var n := |ms|;
    assert |[m] + ms| == n + 1;
    OneMoreTime(n, before);
    OneMoreTime(n, after);
  }

  lemma OneMoreTime(n: nat, k: nat)
    ensures Times(n + 1, k) == k + Times(n, k)
  {
  }

  lemma {:induction false} RepeatLength(m: Message, n: nat)
    ensures |Repeat(m, n)| == n
  {
    if n > 0 {
      RepeatLength(m, n - 1);
    }
  }

  lemma RepeatedSizes(key: bytes, m: Message, before: nat, after: nat, n: nat)
    requires Rewrite(m.head, key).Ok? && m.body == Empty
    requires |m.head| == before && |Rewrite(m.head, key).value.rewritten| == after
    ensures |Wire(Repeat(m, n))| == n * before && |Forwarded(key, Repeat(m, n))| == n * after
  {
    var sized := (ms: seq<Message>) => Sized(key, ms, before, after);
    forall ms | sized(ms) ensures sized([m] + ms) {
      OneMoreSized(key, m, ms, before, after);
    }
    RepeatInduction(sized, m, n);
    assert sized(Repeat(m, n));
    RepeatLength(m, n);
    TimesIs(n, before);
    TimesIs(n, after);
  }
}
