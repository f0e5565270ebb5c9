/**
 * What happens to every record over any run of pushes and flushes: it is delivered, counted as
 * dropped, still buffered, or went down with the channel; and no batch is ever too big.
 */
module LogBatchLaws {
  import opened Bytes
  import opened Text
  import opened LogBatches

  datatype Call = Push(record: bytes, before: SendResult, after: SendResult) | Flush(answer: SendResult)

  /** A run so far: the emitter, the records pushed while it was connected, and everything it did. */
  datatype Run = Run(emitter: Emitter, pushed: seq<bytes>, trace: seq<Effect>)

  const START: Run := Run(EMPTY, [], [])

  function Respond(e: Emitter, call: Call): Outcome {
    match call
    case Push(record, before, after) => PushOnce(e, record, before, after)
    case Flush(answer) => FlushOnce(e, answer)
  }

  function Called(r: Run, call: Call): Run {
    var o := Respond(r.emitter, call);
    Run(o.emitter,
        if call.Push? && !r.emitter.disconnected then r.pushed + [call.record] else r.pushed,
        r.trace + o.effects)
  }

  function RunAll(calls: seq<Call>): Run {
    if calls == [] then START else Called(RunAll(calls[..|calls| - 1]), calls[|calls| - 1])
  }

  // ---------------------------------------------------------------- reading a trace

  /** The records that reached the channel. */
  function DeliveredOf(x: Effect): seq<bytes> {
    if x.Delivered? then x.batch.records else []
  }

  /** The records given up and counted. */
  function DroppedOf(x: Effect): seq<bytes> {
    match x
    case Refused(records) => records
    case Oversize(record) => [record]
    case _ => []
  }

  /** The records that were in the batch during which the channel was found closed; nobody counts them. */
  function SeveredOf(x: Effect): seq<bytes> {
    if x.Severed? then x.records else []
  }

  function AllDelivered(trace: seq<Effect>): seq<bytes> {
    if trace == [] then [] else AllDelivered(trace[..|trace| - 1]) + DeliveredOf(trace[|trace| - 1])
  }

  function AllDropped(trace: seq<Effect>): seq<bytes> {
    if trace == [] then [] else AllDropped(trace[..|trace| - 1]) + DroppedOf(trace[|trace| - 1])
  }

  function AllSevered(trace: seq<Effect>): seq<bytes> {
    if trace == [] then [] else AllSevered(trace[..|trace| - 1]) + SeveredOf(trace[|trace| - 1])
  }

  function Sum(a: Drops, b: Drops): Drops {
    Drops(a.records + b.records, a.batches + b.batches, a.byteCount + b.byteCount)
  }

  /** The true cost of an effect: an empty batch refused costs nothing. */
  function CostOf(x: Effect): Drops {
    var lost := DroppedOf(x);
    Drops(|lost|, if lost == [] then 0 else 1, Weight(lost))
  }

  /** Everything dropped since the last delivery, counted without limit. */
  function Outstanding(trace: seq<Effect>): Drops {
    if trace == [] || trace[|trace| - 1].Delivered? then NOTHING
    else Sum(Outstanding(trace[..|trace| - 1]), CostOf(trace[|trace| - 1]))
  }

  /** The records whose loss was outstanding when some batch got through. */
  function Reported(trace: seq<Effect>): nat {
    if trace == [] then 0
    else
      var earlier := trace[..|trace| - 1];
      Reported(earlier) + if trace[|trace| - 1].Delivered? then Outstanding(earlier).records else 0
  }

  function Saturate(d: Drops): Drops {
    Drops(Saturated(d.records), Saturated(d.batches), Saturated(d.byteCount))
  }

  /** Every delivered batch reports exactly what was outstanding, up to saturation. */
  predicate Honest(trace: seq<Effect>) {
    trace == []
    || (var earlier := trace[..|trace| - 1];
        var last := trace[|trace| - 1];
        && Honest(earlier)
        && (last.Delivered? ==> last.batch.report == Saturate(Outstanding(earlier))))
  }

  /** No batch exceeds the limits, its summary included. */
  predicate Bounded(trace: seq<Effect>) {
    forall i :: 0 <= i < |trace| && trace[i].Delivered? ==> SmallBatch(trace[i].batch)
  }

  predicate SmallBatch(b: Batch) {
    |Payload(b)| <= MAX_BATCH_RECORDS && Weight(Payload(b)) <= MAX_BATCH_BYTES
  }

  /** `a` is what is left of `b` after deleting some elements. */
  predicate Subsequence(a: seq<bytes>, b: seq<bytes>) {
    a == []
    || (b != []
        && (Subsequence(a, b[..|b| - 1])
            || (a[|a| - 1] == b[|b| - 1] && Subsequence(a[..|a| - 1], b[..|b| - 1]))))
  }

  // ---------------------------------------------------------------- the invariant

  predicate Consistent(e: Emitter) {
    && e.byteCount == Weight(e.records)
    && (!e.disconnected ==> |e.records| <= PAYLOAD_RECORDS && e.byteCount <= PAYLOAD_LIMIT)
  }

  /** Between calls a connected emitter has room in its buffer. */
  predicate Roomy(e: Emitter) {
    !e.disconnected ==> |e.records| < PAYLOAD_RECORDS && e.byteCount < PAYLOAD_LIMIT
  }

  /** Records pushed are kept, in their order, or dropped. */
  predicate Placed(pushed: seq<bytes>, kept: seq<bytes>, dropped: seq<bytes>) {
    && multiset(pushed) == multiset(kept) + multiset(dropped)
    && Subsequence(kept, pushed)
  }

  /** What was delivered, what went down with the channel, and what is buffered. */
  function Kept(r: Run): seq<bytes> {
    AllDelivered(r.trace) + AllSevered(r.trace) + r.emitter.records
  }

  /** Every record pushed is in exactly one place, and in order where order is promised. */
  predicate Accounted(r: Run) {
    Placed(r.pushed, Kept(r), AllDropped(r.trace))
  }

  predicate Counted(r: Run) {
    && Honest(r.trace)
    && (!r.emitter.disconnected ==> r.emitter.dropped == Saturate(Outstanding(r.trace)))
  }

  predicate Sound(r: Run) {
    && Consistent(r.emitter) && Accounted(r) && Counted(r) && Bounded(r.trace)
    && (!r.emitter.disconnected ==> AllSevered(r.trace) == [])
  }

  // ---------------------------------------------------------------- one more effect

  lemma OneMore(trace: seq<Effect>, x: Effect)
    ensures AllDelivered(trace + [x]) == AllDelivered(trace) + DeliveredOf(x)
    ensures AllDropped(trace + [x]) == AllDropped(trace) + DroppedOf(x)
    ensures AllSevered(trace + [x]) == AllSevered(trace) + SeveredOf(x)
    ensures Outstanding(trace + [x]) == if x.Delivered? then NOTHING else Sum(Outstanding(trace), CostOf(x))
    ensures Honest(trace + [x])
       <==> Honest(trace) && (x.Delivered? ==> x.batch.report == Saturate(Outstanding(trace)))
    ensures Bounded(trace) && (x.Delivered? ==> SmallBatch(x.batch)) ==> Bounded(trace + [x])
  {
    assert (trace + [x])[..|trace|] == trace;
  }

  /** Records, batches and bytes are dropped together. */
  lemma {:induction false} NoneOrAll(trace: seq<Effect>)
    ensures Outstanding(trace).records == 0 ==> Outstanding(trace) == NOTHING
  {
    if trace != [] {
      NoneOrAll(trace[..|trace| - 1]);
    }
  }

  // ---------------------------------------------------------------- the summary fits its reserve

  function TenTo(k: nat): nat {
    if k == 0 then 1 else 10 * TenTo(k - 1)
  }

  lemma {:induction false} DigitsOf(n: nat, k: nat)
    requires k >= 1 && n < TenTo(k)
    ensures |Decimal(n)| <= k
  {
    if n >= 10 {
      assert TenTo(1) == 10 * TenTo(0) == 10;
      assert n / 10 < TenTo(k - 1);
      DigitsOf(n / 10, k - 1);
    }
  }

  lemma SixtyFourBitsHaveTwentyDigits()
    ensures U64_MAX < TenTo(20)
  {
    assert TenTo(5) == 100000 by { assert TenTo(3) == 1000; }
    assert TenTo(10) == 10000000000 by { assert TenTo(8) == 100000000 by { assert TenTo(6) == 1000000; } }
    assert TenTo(13) == 10000000000000 by { assert TenTo(12) == 1000000000000; }
    assert TenTo(16) == 10000000000000000 by { assert TenTo(15) == 1000000000000000; }
    assert TenTo(18) == 1000000000000000000 by { assert TenTo(17) == 100000000000000000; }
    assert TenTo(20) == 100000000000000000000;
  }

  /** The reserve kept free in every batch is enough for any summary. */
  lemma SummaryFits(d: Drops)
    requires d.records <= U64_MAX && d.batches <= U64_MAX && d.byteCount <= U64_MAX
    ensures |DroppedSummary(d)| < DROPPED_SUMMARY_RESERVE_BYTES
  {
    SixtyFourBitsHaveTwentyDigits();
    DigitsOf(d.records, 20);
    DigitsOf(d.batches, 20);
    DigitsOf(d.byteCount, 20);
  }

  lemma {:induction false} WeightOfConcat(a: seq<bytes>, b: seq<bytes>)
    ensures Weight(a + b) == Weight(a) + Weight(b)
  {
    if b == [] {
      assert a + b == a;
    } else {
      assert (a + b)[..|a + b| - 1] == a + b[..|b| - 1];
      WeightOfConcat(a, b[..|b| - 1]);
    }
  }

  lemma BatchIsSmall(b: Batch)
    requires |b.records| <= PAYLOAD_RECORDS && Weight(b.records) <= PAYLOAD_LIMIT
    requires b.report == Saturate(b.report)
    ensures SmallBatch(b)
  {
    if b.report.records > 0 {
      SummaryFits(b.report);
      var summary: seq<bytes> := [DroppedSummary(b.report)];
      WeightOfConcat(summary, b.records);
      assert Weight(summary) == Weight(summary[..0]) + |summary[0]| + 1;
    } else {
      assert [] + b.records == b.records;
    }
  }

  // ---------------------------------------------------------------- subsequences

  lemma {:induction false} SubsequenceOfLonger(a: seq<bytes>, b: seq<bytes>, x: bytes)
    requires Subsequence(a, b)
    ensures Subsequence(a, b + [x])
    ensures Subsequence(a + [x], b + [x])
  {
    assert (b + [x])[..|b|] == b && (a + [x])[..|a|] == a;
  }

  /** Losing the end of a subsequence leaves a subsequence. */
  lemma {:induction false} SubsequencePrefix(a: seq<bytes>, lost: seq<bytes>, b: seq<bytes>)
    requires Subsequence(a + lost, b)
    ensures Subsequence(a, b)
    decreases |b|
  {
    if lost == [] {
      assert a + lost == a;
    } else if a != [] {
      if Subsequence(a + lost, b[..|b| - 1]) {
        SubsequencePrefix(a, lost, b[..|b| - 1]);
      } else {
        assert (a + lost)[..|a + lost| - 1] == a + lost[..|lost| - 1];
        SubsequencePrefix(a, lost[..|lost| - 1], b[..|b| - 1]);
      }
    }
  }

  lemma PlacedTake(pushed: seq<bytes>, kept: seq<bytes>, dropped: seq<bytes>, x: bytes)
    requires Placed(pushed, kept, dropped)
    ensures Placed(pushed + [x], kept + [x], dropped)
    ensures Placed(pushed + [x], kept, dropped + [x])
  {
    SubsequenceOfLonger(kept, pushed, x);
    assert multiset(kept + [x]) == multiset(kept) + multiset{x};
  }

  lemma PlacedDrop(pushed: seq<bytes>, kept: seq<bytes>, lost: seq<bytes>, dropped: seq<bytes>)
    requires Placed(pushed, kept + lost, dropped)
    ensures Placed(pushed, kept, dropped + lost)
  {
    SubsequencePrefix(kept, lost, pushed);
  }

  // ---------------------------------------------------------------- flushing

  function Flushed(r: Run, answer: SendResult): Run {
    Called(r, Flush(answer))
  }

  /** What a flush that does something adds to the trace. */
  function FlushEffect(e: Emitter, answer: SendResult): Effect {
    match answer
    case Accepted => Delivered(Batch(if e.dropped.records > 0 then e.dropped else NOTHING, e.records))
    case Full => Refused(e.records)
    case Disconnected => Severed(e.records)
  }

  predicate Idle(e: Emitter) {
    e.disconnected || (e.records == [] && e.dropped.records == 0)
  }

  lemma IdleFlush(r: Run, answer: SendResult)
    requires Idle(r.emitter)
    ensures Flushed(r, answer) == r
  {
    assert r.trace + [] == r.trace;
  }

  lemma BusyFlush(r: Run, answer: SendResult)
    requires !Idle(r.emitter)
    ensures var next := Flushed(r, answer);
            && next.pushed == r.pushed && next.trace == r.trace + [FlushEffect(r.emitter, answer)]
            && next.emitter.records == [] && next.emitter.byteCount == 0
            && next.emitter.disconnected == answer.Disconnected?
  {
  }

  /** Where a flush leaves the records. */
  lemma FlushMoves(r: Run, answer: SendResult)
    requires !Idle(r.emitter) && AllSevered(r.trace) == []
    ensures var next := Flushed(r, answer);
            var buffer := r.emitter.records;
            && Kept(next) == (if answer.Full? then AllDelivered(r.trace) else Kept(r))
            && Kept(r) == AllDelivered(r.trace) + buffer
            && AllDropped(next.trace) == AllDropped(r.trace) + (if answer.Full? then buffer else [])
  {
    var x := FlushEffect(r.emitter, answer);
    BusyFlush(r, answer);
    OneMore(r.trace, x);
    var kept := AllDelivered(r.trace);
    assert kept + [] == kept;
    assert [] + r.emitter.records == r.emitter.records;
    assert (kept + DeliveredOf(x)) + ([] + SeveredOf(x)) + [] == kept + DeliveredOf(x) + SeveredOf(x);
  }

  lemma FlushKeepsAccounts(r: Run, answer: SendResult)
    requires Accounted(r) && AllSevered(r.trace) == [] && !Idle(r.emitter)
    ensures Accounted(Flushed(r, answer))
  {
    BusyFlush(r, answer);
    FlushMoves(r, answer);
    if answer.Full? {
      PlacedDrop(r.pushed, AllDelivered(r.trace), r.emitter.records, AllDropped(r.trace));
    } else {
      assert AllDropped(r.trace) + [] == AllDropped(r.trace);
    }
  }

  lemma FlushKeepsCounts(r: Run, answer: SendResult)
    requires Consistent(r.emitter) && Counted(r) && Bounded(r.trace) && !Idle(r.emitter)
    ensures Counted(Flushed(r, answer)) && Bounded(Flushed(r, answer).trace)
  {
    var x := FlushEffect(r.emitter, answer);
    BusyFlush(r, answer);
    OneMore(r.trace, x);
    NoneOrAll(r.trace);
    if answer.Accepted? {
      BatchIsSmall(x.batch);
    }
  }

  lemma FlushIsSound(r: Run, answer: SendResult)
    requires Sound(r)
    ensures Sound(Flushed(r, answer))
    ensures Flushed(r, answer).pushed == r.pushed
    ensures !Flushed(r, answer).emitter.disconnected ==> Flushed(r, answer).emitter.records == []
  {
    if Idle(r.emitter) {
      IdleFlush(r, answer);
    } else {
      BusyFlush(r, answer);
      FlushKeepsAccounts(r, answer);
      FlushKeepsCounts(r, answer);
      OneMore(r.trace, FlushEffect(r.emitter, answer));
    }
  }

  // ---------------------------------------------------------------- pushing

  /** The record taken into the buffer. */
  function Took(r: Run, record: bytes): Run {
    Run(Appended(r.emitter, record), r.pushed + [record], r.trace)
  }

  lemma TookFits(e: Emitter, record: bytes)
    requires Consistent(e) && |record| + 1 <= PAYLOAD_LIMIT
    requires !e.disconnected ==> !Overflows(e, |record| + 1)
    ensures Consistent(Appended(e, record))
  {
    assert (e.records + [record])[..|e.records|] == e.records;
    assert e.records == [] ==> Weight(e.records) == 0;
  }

  lemma TookIsSound(r: Run, record: bytes)
    requires Sound(r) && |record| + 1 <= PAYLOAD_LIMIT
    requires !r.emitter.disconnected ==> !Overflows(r.emitter, |record| + 1)
    ensures Sound(Took(r, record))
  {
    var next := Took(r, record);
    TookFits(r.emitter, record);
    assert Kept(next) == Kept(r) + [record];
    PlacedTake(r.pushed, Kept(r), AllDropped(r.trace), record);
  }

  /** A record too big for any batch: dropped and counted at once. */
  function Turned(r: Run, record: bytes): Run {
    Run(NoteDropped(r.emitter, Drops(1, 1, |record| + 1)), r.pushed + [record], r.trace + [Oversize(record)])
  }

  lemma TurnedIsSound(r: Run, record: bytes)
    requires Sound(r) && !r.emitter.disconnected
    ensures Sound(Turned(r, record))
  {
    TurnedKeepsAccounts(r, record);
    TurnedKeepsCounts(r, record);
    OneMore(r.trace, Oversize(record));
  }

  lemma TurnedKeepsAccounts(r: Run, record: bytes)
    requires Accounted(r)
    ensures Accounted(Turned(r, record))
  {
    var next := Turned(r, record);
    OneMore(r.trace, Oversize(record));
    PlacedTake(r.pushed, Kept(r), AllDropped(r.trace), record);
    assert AllDelivered(next.trace) == AllDelivered(r.trace) && AllSevered(next.trace) == AllSevered(r.trace);
  }

  lemma TurnedKeepsCounts(r: Run, record: bytes)
    requires Counted(r) && Bounded(r.trace) && !r.emitter.disconnected
    ensures Counted(Turned(r, record)) && Bounded(Turned(r, record).trace)
  {
    OneMore(r.trace, Oversize(record));
    OneRecord(record);
    assert CostOf(Oversize(record)) == Drops(1, 1, |record| + 1);
  }

  lemma OneRecord(record: bytes)
    ensures Weight([record]) == |record| + 1
  {
    assert [record] == [] + [record];
    WeightOfConcat([], [record]);
  }

  // ---------------------------------------------------------------- every run

  /** The run after the flush that makes room for a record, if one is needed. */
  function Cleared(r: Run, record: bytes, answer: SendResult): Run {
    if Overflows(r.emitter, |record| + 1) then Flushed(r, answer) else r
  }

  /** A push is a flush if there is no room, the record taken in, and a flush if that fills the buffer. */
  lemma PushInSteps(r: Run, record: bytes, before: SendResult, after: SendResult)
    requires !r.emitter.disconnected && |record| + 1 <= PAYLOAD_LIMIT
    ensures var taken := Took(Cleared(r, record, before), record);
            Called(r, Push(record, before, after)) == if IsFull(taken.emitter) then Flushed(taken, after) else taken
  {
    var cleared := Cleared(r, record, before);
    var first := if Overflows(r.emitter, |record| + 1) then FlushOnce(r.emitter, before).effects else [];
    assert cleared.trace == r.trace + first;
    var second := FlushOnce(Appended(cleared.emitter, record), after).effects;
    assert r.trace + (first + second) == r.trace + first + second;
  }

  lemma CallIsSound(r: Run, call: Call)
    requires Sound(r) && Roomy(r.emitter)
    ensures Sound(Called(r, call)) && Roomy(Called(r, call).emitter)
  {
    match call {
      case Flush(answer) =>
        FlushIsSound(r, answer);
      case Push(record, before, after) =>
        if r.emitter.disconnected {
          assert r.trace + [] == r.trace;
        } else if |record| + 1 > PAYLOAD_LIMIT {
          assert Called(r, call) == Turned(r, record);
          TurnedIsSound(r, record);
        } else {
          PushInSteps(r, record, before, after);
          FlushIsSound(r, before);
          var cleared := Cleared(r, record, before);
          TookIsSound(cleared, record);
          FlushIsSound(Took(cleared, record), after);
        }
    }
  }

  /** Over any run of calls, whatever the channel answers. */
  lemma {:induction false} EveryRunIsSound(calls: seq<Call>)
    ensures Sound(RunAll(calls)) && Roomy(RunAll(calls).emitter)
  {
    if calls == [] {
      assert Weight([]) == 0;
    } else {
      EveryRunIsSound(calls[..|calls| - 1]);
      CallIsSound(RunAll(calls[..|calls| - 1]), calls[|calls| - 1]);
    }
  }

  // ---------------------------------------------------------------- conservation in numbers

  /** What the delivered summaries add up to. */
  function SumOfReports(trace: seq<Effect>): nat {
    if trace == [] then 0
    else
      SumOfReports(trace[..|trace| - 1])
      + if trace[|trace| - 1].Delivered? then trace[|trace| - 1].batch.report.records else 0
  }

  /** Every drop is reported or outstanding; while no counter can have saturated, the summaries say so exactly. */
  lemma {:induction false} DropsAreReported(trace: seq<Effect>)
    requires Honest(trace)
    ensures |AllDropped(trace)| == Reported(trace) + Outstanding(trace).records
    ensures SumOfReports(trace) <= Reported(trace)
    ensures |AllDropped(trace)| <= U64_MAX ==> SumOfReports(trace) == Reported(trace)
  {
    if trace != [] {
      DropsAreReported(trace[..|trace| - 1]);
    }
  }

  /**
   * Conservation: as long as the channel is open and fewer than 2^64 records were dropped, records
   * pushed are records delivered, drops reported in delivered summaries, the drop counter and the buffer.
   */
  lemma NothingIsLostSilently(calls: seq<Call>)
    ensures var r := RunAll(calls);
            && |r.pushed|
               == |AllDelivered(r.trace)| + |AllSevered(r.trace)| + |r.emitter.records| + |AllDropped(r.trace)|
            && (!r.emitter.disconnected && |AllDropped(r.trace)| <= U64_MAX ==>
                  |r.pushed| == |AllDelivered(r.trace)| + SumOfReports(r.trace)
                              + r.emitter.dropped.records + |r.emitter.records|)
  {
    var r := RunAll(calls);
    EveryRunIsSound(calls);
    DropsAreReported(r.trace);
    assert |multiset(r.pushed)| == |r.pushed|;
    assert |multiset(Kept(r))| == |Kept(r)| && |multiset(AllDropped(r.trace))| == |AllDropped(r.trace)|;
  }

  /** Every batch delivered over a run has at most 64 strings and 32 KiB, its summary included. */
  lemma BatchesStaySmall(calls: seq<Call>, i: nat)
    requires i < |RunAll(calls).trace| && RunAll(calls).trace[i].Delivered?
    ensures SmallBatch(RunAll(calls).trace[i].batch)
  {
    EveryRunIsSound(calls);
  }
}
