/**
 * What the batch sender may do and no more: when it drops a record, when it sends a batch on its own account, that
 * a channel with room loses nothing, and that the summary of the drops can be read back.
 */
module LogBatchMeaning {
  import opened Bytes
  import opened Text
  import opened LogBatches
  import opened LogBatchLaws

  // ---------------------------------------------------------------- one call

  /** How the channel answers during a call. */
  function Answers(call: Call): set<SendResult> {
    match call
    case Push(_, before, after) => {before, after}
    case Flush(answer) => {answer}
  }

  /** Nothing is given up without cause: a full channel, a closed one, or a record that no batch has room for. */
  predicate Warranted(x: Effect, call: Call) {
    match x
    case Delivered(batch) => Accepted in Answers(call)
    case Refused(records) => Full in Answers(call)
    case Severed(records) => Disconnected in Answers(call)
    case Oversize(record) => call.Push? && record == call.record && |record| + 1 > PAYLOAD_LIMIT
  }

  /** The records an effect takes out of the buffer. */
  function TakenOut(x: Effect): seq<bytes> {
    DeliveredOf(x) + (if x.Refused? then x.records else []) + SeveredOf(x)
  }

  /** What went out left no room: it filled the batch, or the record that was pushed did not fit beside it. */
  predicate NoRoomLeft(records: seq<bytes>, record: bytes) {
    || |records| >= PAYLOAD_RECORDS
    || Weight(records) >= PAYLOAD_LIMIT
    || (records != [] && Weight(records) + |record| + 1 > PAYLOAD_LIMIT)
  }

  lemma FlushWarranted(e: Emitter, answer: SendResult, call: Call, i: nat)
    requires answer in Answers(call) && i < |FlushOnce(e, answer).effects|
    ensures Warranted(FlushOnce(e, answer).effects[i], call) && !FlushOnce(e, answer).effects[i].Oversize?
    ensures TakenOut(FlushOnce(e, answer).effects[i]) == e.records
  {
    assert e.records + [] + [] == e.records && [] + e.records + [] == e.records && [] + [] + e.records == e.records;
  }

  /** Every effect of a call has its cause in that call. */
  lemma CallWarranted(e: Emitter, call: Call, i: nat)
    requires i < |Respond(e, call).effects|
    ensures Warranted(Respond(e, call).effects[i], call)
  {
    match call {
      case Flush(answer) =>
        FlushWarranted(e, answer, call, i);
      case Push(record, before, after) =>
        if |record| + 1 <= PAYLOAD_LIMIT {
          var cleared := ClearedBy(e, record, before);
          if i < |cleared.effects| {
            FlushWarranted(e, before, call, i);
          } else {
            FlushWarranted(Appended(cleared.emitter, record), after, call, i - |cleared.effects|);
          }
        }
    }
  }

  /** The flush that makes room for a record, if one is needed. */
  function ClearedBy(e: Emitter, record: bytes, before: SendResult): Outcome {
    if Overflows(e, |record| + 1) then FlushOnce(e, before) else Outcome(e, [])
  }

  predicate SentFull(x: Effect, record: bytes) {
    x.Oversize? || NoRoomLeft(TakenOut(x), record)
  }

  predicate AllSentFull(effects: seq<Effect>, record: bytes) {
    forall i :: 0 <= i < |effects| ==> SentFull(effects[i], record)
  }

  /** A push sends a batch only when it has to: there is no room left in it. */
  lemma PushSendsOnlyWhenFull(e: Emitter, record: bytes, before: SendResult, after: SendResult)
    requires Consistent(e)
    ensures AllSentFull(PushOnce(e, record, before, after).effects, record)
  {
    if !e.disconnected && |record| + 1 <= PAYLOAD_LIMIT {
      var cleared := ClearedBy(e, record, before);
      var taken := Appended(cleared.emitter, record);
      AppendedWeighs(cleared.emitter, record);
      RoomThenFull(e, taken, record, before, after);
      var more := if IsFull(taken) then FlushOnce(taken, after).effects else [];
      BothSentFull(cleared.effects, more, record);
      PushInParts(e, record, before, after, cleared, taken, more);
    }
  }

  lemma BothSentFull(a: seq<Effect>, b: seq<Effect>, record: bytes)
    requires AllSentFull(a, record) && AllSentFull(b, record)
    ensures AllSentFull(a + b, record)
  {
  }

  lemma PushInParts(e: Emitter, record: bytes, before: SendResult, after: SendResult,
                    cleared: Outcome, taken: Emitter, more: seq<Effect>)
    requires !e.disconnected && |record| + 1 <= PAYLOAD_LIMIT
    requires cleared == ClearedBy(e, record, before) && taken == Appended(cleared.emitter, record)
    requires more == if IsFull(taken) then FlushOnce(taken, after).effects else []
    ensures PushOnce(e, record, before, after).effects == cleared.effects + more
  {
  }

  lemma RoomThenFull(e: Emitter, taken: Emitter, record: bytes, before: SendResult, after: SendResult)
    requires Consistent(e) && taken.byteCount == Weight(taken.records)
    ensures AllSentFull(ClearedBy(e, record, before).effects, record)
    ensures IsFull(taken) ==> AllSentFull(FlushOnce(taken, after).effects, record)
  {
    forall i | 0 <= i < |ClearedBy(e, record, before).effects|
      ensures SentFull(ClearedBy(e, record, before).effects[i], record)
    {
      MadeRoom(e, record, before, i);
    }
    forall i | IsFull(taken) && 0 <= i < |FlushOnce(taken, after).effects|
      ensures SentFull(FlushOnce(taken, after).effects[i], record)
    {
      FilledUp(taken, record, after, i);
    }
  }

  lemma MadeRoom(e: Emitter, record: bytes, before: SendResult, i: nat)
    requires Consistent(e) && Overflows(e, |record| + 1) && i < |FlushOnce(e, before).effects|
    ensures NoRoomLeft(TakenOut(FlushOnce(e, before).effects[i]), record)
  {
    FlushWarranted(e, before, Flush(before), i);
  }

  lemma FilledUp(taken: Emitter, record: bytes, after: SendResult, i: nat)
    requires taken.byteCount == Weight(taken.records) && IsFull(taken) && i < |FlushOnce(taken, after).effects|
    ensures NoRoomLeft(TakenOut(FlushOnce(taken, after).effects[i]), record)
  {
    FlushWarranted(taken, after, Flush(after), i);
  }

  lemma AppendedWeighs(e: Emitter, record: bytes)
    requires e.byteCount == Weight(e.records)
    ensures Appended(e, record).byteCount == Weight(Appended(e, record).records)
  {
    assert (e.records + [record])[..|e.records|] == e.records;
  }

  /** An asked-for flush the channel takes sends all there is, with what was dropped, and leaves nothing owed. */
  lemma FlushSendsAll(e: Emitter)
    requires !e.disconnected && (e.records != [] || e.dropped.records > 0)
    requires e.dropped.records == 0 ==> e.dropped == NOTHING
    ensures FlushOnce(e, Accepted) == Outcome(EMPTY, [Delivered(Batch(e.dropped, e.records))])
  {
  }

  // ---------------------------------------------------------------- a channel with room

  /** The channel takes all it is given, and every record fits into a batch. */
  predicate Easy(call: Call) {
    Answers(call) == {Accepted} && (call.Push? ==> |call.record| + 1 <= PAYLOAD_LIMIT)
  }

  predicate AllEasy(calls: seq<Call>) {
    forall i :: 0 <= i < |calls| ==> Easy(calls[i])
  }

  /** The records of the pushes. */
  function PushedBy(calls: seq<Call>): seq<bytes> {
    if calls == [] then []
    else
      var last := calls[|calls| - 1];
      PushedBy(calls[..|calls| - 1]) + if last.Push? then [last.record] else []
  }

  /** Everything pushed has been sent or waits, in order, and nothing was dropped. */
  predicate NothingLost(r: Run, pushed: seq<bytes>) {
    && pushed == AllDelivered(r.trace) + r.emitter.records
    && AllDropped(r.trace) == [] && AllSevered(r.trace) == []
    && r.emitter.dropped == NOTHING && !r.emitter.disconnected
  }

  lemma EasyFlush(r: Run, pushed: seq<bytes>)
    requires NothingLost(r, pushed)
    ensures NothingLost(Flushed(r, Accepted), pushed)
  {
    if Idle(r.emitter) {
      IdleFlush(r, Accepted);
    } else {
      BusyFlush(r, Accepted);
      OneMore(r.trace, FlushEffect(r.emitter, Accepted));
      assert AllDelivered(r.trace) + r.emitter.records + [] == AllDelivered(r.trace) + r.emitter.records;
    }
  }

  lemma EasyTake(r: Run, pushed: seq<bytes>, record: bytes)
    requires NothingLost(r, pushed)
    ensures NothingLost(Took(r, record), pushed + [record])
  {
    var sent := AllDelivered(r.trace);
    assert sent + r.emitter.records + [record] == sent + (r.emitter.records + [record]);
  }

  /** As long as the channel takes every batch, every record that fits is sent or waits, in order. */
  lemma {:induction false} NothingLostWhileThereIsRoom(calls: seq<Call>)
    requires AllEasy(calls)
    ensures NothingLost(RunAll(calls), PushedBy(calls))
  {
    if calls != [] {
      var n := |calls| - 1;
      NothingLostWhileThereIsRoom(calls[..n]);
      assert Easy(calls[n]);
      EasyCall(RunAll(calls[..n]), PushedBy(calls[..n]), calls[n]);
    }
  }

  lemma EasyCall(r: Run, pushed: seq<bytes>, call: Call)
    requires NothingLost(r, pushed) && Easy(call)
    ensures NothingLost(Called(r, call), pushed + if call.Push? then [call.record] else [])
  {
    match call {
      case Flush(answer) =>
        assert answer in Answers(call) && pushed + [] == pushed;
        EasyFlush(r, pushed);
      case Push(record, before, after) =>
        assert before in Answers(call) && after in Answers(call);
        PushInSteps(r, record, before, after);
        EasyFlush(r, pushed);
        var cleared := Cleared(r, record, before);
        EasyTake(cleared, pushed, record);
        EasyFlush(Took(cleared, record), pushed + [record]);
    }
  }

  // ---------------------------------------------------------------- the summary read back

  /** The parts of a line between its bars. */
  function Fields(s: bytes): (r: seq<bytes>)
    ensures r != []
  {
    if s == [] then [[]]
    else
      var rest := Fields(s[1..]);
      if s[0] == '|' then [[]] + rest else [[s[0]] + rest[0]] + rest[1..]
  }

  /** A field that gives the name a number, spaces around it. */
  predicate Gives(field: bytes, name: bytes, n: nat) {
    field == Given(name, n) || field == Given(name, n) + [' ']
  }

  function Given(name: bytes, n: nat): bytes {
    [' '] + name + ['='] + Decimal(n)
  }

  ghost predicate Reports(line: bytes, name: bytes, n: nat) {
    exists i :: 0 <= i < |Fields(line)| && Gives(Fields(line)[i], name, n)
  }

  lemma {:induction false} FieldThenMore(field: bytes, more: bytes)
    requires '|' !in field
    ensures Fields(field + ['|'] + more) == [field] + Fields(more)
  {
    var s := field + ['|'] + more;
    if field == [] {
      assert s[1..] == more;
    } else {
      assert s[1..] == field[1..] + ['|'] + more;
      assert s[0] == field[0] && field[0] in field;
      FieldThenMore(field[1..], more);
      assert ([field[1..]] + Fields(more))[1..] == Fields(more);
      assert [field[0]] + field[1..] == field;
    }
  }

  lemma {:induction false} LastField(field: bytes)
    requires '|' !in field
    ensures Fields(field) == [field]
  {
    if field != [] {
      assert field[0] in field;
      LastField(field[1..]);
      assert [field[0]] + field[1..] == field;
    }
  }

  /** Digits end where the field does, or at the space. */
  lemma SameDigits(m: nat, n: nat, field: bytes)
    requires field == Decimal(m) || field == Decimal(m) + [' ']
    requires field == Decimal(n) || field == Decimal(n) + [' ']
    ensures m == n
  {
    var last := field[|field| - 1];
    assert last == ' ' ==> field[..|field| - 1] == Decimal(m) && field[..|field| - 1] == Decimal(n);
    assert last != ' ' ==> field == Decimal(m) == Decimal(n);
    NumberOfDecimal(m);
    NumberOfDecimal(n);
  }

  /** A field gives one name one number. */
  lemma OneGiven(field: bytes, name: bytes, n: nat, other: bytes, m: nat)
    requires '=' !in name && '=' !in other
    requires Gives(field, name, n) && Gives(field, other, m)
    ensures name == other && n == m
  {
    EqualsAt(field, name, n);
    EqualsAt(field, other, m);
    SameDigits(m, n, field[|name| + 2..]);
  }

  lemma EqualsAt(field: bytes, name: bytes, n: nat)
    requires '=' !in name && Gives(field, name, n)
    ensures FirstIndex(field, '=') == 1 + |name| && field[1..1 + |name|] == name
    ensures field[|name| + 2..] == Decimal(n) || field[|name| + 2..] == Decimal(n) + [' ']
  {
    var front: bytes := [' '] + name;
    var rest := field[|name| + 2..];
    assert field == front + ['='] + rest;
    FirstIndexIs(front, '=', rest);
  }

  const RECORDS: bytes := "dropped_records"
  const BATCHES: bytes := "dropped_batches"
  const BYTES: bytes := "dropped_bytes"

  /** The four fields of a summary. */
  lemma SummaryFields(d: Drops)
    ensures Fields(DroppedSummary(d))
         == [CLASS_LABEL + [' '], Given(RECORDS, d.records) + [' '], Given(BATCHES, d.batches) + [' '],
             Given(BYTES, d.byteCount)]
  {
    var c, y := CLASS_LABEL + [' '], Given(BYTES, d.byteCount);
    var r, b := Given(RECORDS, d.records) + [' '], Given(BATCHES, d.batches) + [' '];
    SummaryIs(d);
    NoBar(RECORDS, d.records);
    NoBar(BATCHES, d.batches);
    NoBar(BYTES, d.byteCount);
    FourFields(c, r, b, y);
  }

  lemma FourFields(c: bytes, r: bytes, b: bytes, y: bytes)
    requires '|' !in c && '|' !in r && '|' !in b && '|' !in y
    ensures Fields(c + ['|'] + (r + ['|'] + (b + ['|'] + y))) == [c, r, b, y]
  {
    FieldThenMore(c, r + ['|'] + (b + ['|'] + y));
    FieldThenMore(r, b + ['|'] + y);
    FieldThenMore(b, y);
    LastField(y);
  }

  lemma NoBar(name: bytes, n: nat)
    requires '|' !in name
    ensures '|' !in Given(name, n) && '|' !in Given(name, n) + [' ']
  {
  }

  lemma SummaryIs(d: Drops)
    ensures DroppedSummary(d)
         == CLASS_LABEL + [' '] + ['|'] + (Given(RECORDS, d.records) + [' '] + ['|']
            + (Given(BATCHES, d.batches) + [' '] + ['|'] + Given(BYTES, d.byteCount)))
  {
    Labels();
    var c, r, b := CLASS_LABEL, Decimal(d.records), Decimal(d.batches);
    Regroup(c, RECORDS_LABEL, RECORDS, r);
    Regroup(c + RECORDS_LABEL + r, BATCHES_LABEL, BATCHES, b);
    Regroup(c + RECORDS_LABEL + r + BATCHES_LABEL + b, BYTES_LABEL, BYTES, Decimal(d.byteCount));
    Nested(c + [' ', '|'], Given(RECORDS, d.records) + [' ', '|'], Given(BATCHES, d.batches) + [' ', '|'],
           Given(BYTES, d.byteCount));
    Barred(c);
    Barred(Given(RECORDS, d.records));
    Barred(Given(BATCHES, d.batches));
    Shifted(c, Given(RECORDS, d.records), Given(BATCHES, d.batches), Given(BYTES, d.byteCount));
  }

  lemma Barred(s: bytes)
    ensures s + [' ', '|'] == s + [' '] + ['|']
  {
  }

  lemma Nested(a: bytes, b: bytes, c: bytes, d: bytes)
    ensures a + (b + (c + d)) == a + b + c + d
  {
  }

  /** The bars go with what follows, or with what precedes. */
  lemma Shifted(a: bytes, b: bytes, c: bytes, d: bytes)
    ensures a + ([' ', '|'] + b) + ([' ', '|'] + c) + ([' ', '|'] + d)
         == (a + [' ', '|']) + (b + [' ', '|']) + (c + [' ', '|']) + d
  {
  }

  lemma Labels()
    ensures RECORDS_LABEL == [' ', '|', ' '] + RECORDS + ['=']
    ensures BATCHES_LABEL == [' ', '|', ' '] + BATCHES + ['=']
    ensures BYTES_LABEL == [' ', '|', ' '] + BYTES + ['=']
  {
  }

  lemma Regroup(front: bytes, tag: bytes, name: bytes, digits: bytes)
    requires tag == [' ', '|', ' '] + name + ['=']
    ensures front + tag + digits == front + ([' ', '|'] + ([' '] + name + ['='] + digits))
  {
    assert tag + digits == [' ', '|'] + ([' '] + name + ['='] + digits);
  }

  lemma NothingInTheFirst(field: bytes, name: bytes, n: nat)
    requires field == CLASS_LABEL + [' ']
    ensures !Gives(field, name, n)
  {
    assert field[0] == '[';
  }

  /** The summary gives each counter its number, and no other. */
  lemma SummaryReadsBack(d: Drops, n: nat)
    ensures Reports(DroppedSummary(d), RECORDS, n) <==> n == d.records
    ensures Reports(DroppedSummary(d), BATCHES, n) <==> n == d.batches
    ensures Reports(DroppedSummary(d), BYTES, n) <==> n == d.byteCount
  {
    NoEquals();
    ReadBack(d, RECORDS, d.records, 1, n);
    ReadBack(d, BATCHES, d.batches, 2, n);
    ReadBack(d, BYTES, d.byteCount, 3, n);
  }

  lemma NoEquals()
    ensures '=' !in RECORDS && '=' !in BATCHES && '=' !in BYTES
    ensures RECORDS != BATCHES && RECORDS != BYTES && BATCHES != BYTES
  {
    assert RECORDS[8] != BATCHES[8];
  }

  lemma ReadBack(d: Drops, name: bytes, value: nat, at: nat, n: nat)
    requires (at, name, value) in {(1, RECORDS, d.records), (2, BATCHES, d.batches), (3, BYTES, d.byteCount)}
    ensures Reports(DroppedSummary(d), name, n) <==> n == value
  {
    var fields := Fields(DroppedSummary(d));
    SummaryFields(d);
    NoEquals();
    assert Gives(fields[at], name, value);
    forall i | 0 <= i < 4 && Gives(fields[i], name, n)
      ensures n == value
    {
      NothingInTheFirst(fields[0], name, n);
      var other := if i == 1 then RECORDS else if i == 2 then BATCHES else BYTES;
      var m := if i == 1 then d.records else if i == 2 then d.batches else d.byteCount;
      OneGiven(fields[i], name, n, other, m);
    }
  }
}
