/**
 * The sender that groups log records into bounded batches for a bounded channel and counts, in
 * saturating 64-bit counters, what it had to drop until a summary of it gets through.
 */
module LogBatches {
  import opened Bytes
  import opened Text

  const MAX_BATCH_BYTES: nat := 32768
  const MAX_BATCH_RECORDS: nat := 64
  const DROPPED_SUMMARY_RESERVE_BYTES: nat := 256
  const PAYLOAD_LIMIT: nat := MAX_BATCH_BYTES - DROPPED_SUMMARY_RESERVE_BYTES
  const PAYLOAD_RECORDS: nat := MAX_BATCH_RECORDS - 1
  const U64_MAX: nat := 18446744073709551615

  datatype SendResult = Accepted | Full | Disconnected

  /** How much was dropped: records, batches and bytes. */
  datatype Drops = Drops(records: nat, batches: nat, byteCount: nat)

  const NOTHING: Drops := Drops(0, 0, 0)

  /** A batch as sent: the drops its summary reports (none for no summary) and the records proper. */
  datatype Batch = Batch(report: Drops, records: seq<bytes>)

  /** What a call does to the outside: batches given to the channel, and records given up. */
  datatype Effect =
    | Delivered(batch: Batch)
    | Refused(records: seq<bytes>)
    | Oversize(record: bytes)
    | Severed(records: seq<bytes>)

  datatype Emitter = Emitter(records: seq<bytes>, byteCount: nat, dropped: Drops, disconnected: bool)

  datatype Outcome = Outcome(emitter: Emitter, effects: seq<Effect>)

  const EMPTY: Emitter := Emitter([], 0, NOTHING, false)

  function Saturated(n: nat): (r: nat)
    ensures r <= U64_MAX
  {
    if n <= U64_MAX then n else U64_MAX
  }

  function SaturatingSum(a: Drops, b: Drops): Drops {
    Drops(Saturated(a.records + b.records), Saturated(a.batches + b.batches), Saturated(a.byteCount + b.byteCount))
  }

  function NoteDropped(e: Emitter, lost: Drops): Emitter {
    e.(dropped := SaturatingSum(e.dropped, lost))
  }

  /** `flush`, given how the channel would answer. */
  function FlushOnce(e: Emitter, answer: SendResult): Outcome {
    if e.disconnected || (e.records == [] && e.dropped.records == 0) then Outcome(e, [])
    else
      var taken := e.(records := [], byteCount := 0);
      match answer
      case Accepted =>
        Outcome(taken.(dropped := NOTHING),
                [Delivered(Batch(if e.dropped.records > 0 then e.dropped else NOTHING, e.records))])
      case Full =>
        Outcome(if e.records != [] then NoteDropped(taken, Drops(|e.records|, 1, e.byteCount)) else taken,
                [Refused(e.records)])
      case Disconnected =>
        Outcome(taken.(disconnected := true), [Severed(e.records)])
  }

  /** Whether the record has to go into a batch of its own or a new one. */
  predicate Overflows(e: Emitter, size: nat) {
    e.records != [] && (|e.records| >= PAYLOAD_RECORDS || e.byteCount + size > PAYLOAD_LIMIT)
  }

  function Appended(e: Emitter, record: bytes): Emitter {
    e.(records := e.records + [record], byteCount := e.byteCount + |record| + 1)
  }

  predicate IsFull(e: Emitter) {
    |e.records| >= PAYLOAD_RECORDS || e.byteCount >= PAYLOAD_LIMIT
  }

  /** `push`; it may flush before and after taking the record in. */
  function PushOnce(e: Emitter, record: bytes, before: SendResult, after: SendResult): Outcome {
    if e.disconnected then Outcome(e, [])
    else if |record| + 1 > PAYLOAD_LIMIT then
      Outcome(NoteDropped(e, Drops(1, 1, |record| + 1)), [Oversize(record)])
    else
      var cleared := if Overflows(e, |record| + 1) then FlushOnce(e, before) else Outcome(e, []);
      var taken := Appended(cleared.emitter, record);
      if IsFull(taken) then
        var flushed := FlushOnce(taken, after);
        Outcome(flushed.emitter, cleared.effects + flushed.effects)
      else Outcome(taken, cleared.effects)
  }

  // ---------------------------------------------------------------- the summary

  const CLASS_LABEL: bytes := "[Runtime log reader] class=queue_overflow"
  const RECORDS_LABEL: bytes := " | dropped_records="
  const BATCHES_LABEL: bytes := " | dropped_batches="
  const BYTES_LABEL: bytes := " | dropped_bytes="

  function DroppedSummary(d: Drops): bytes {
    CLASS_LABEL
    + RECORDS_LABEL + Decimal(d.records) + BATCHES_LABEL + Decimal(d.batches) + BYTES_LABEL + Decimal(d.byteCount)
  }

  /** The strings that actually travel in a batch. */
  function Payload(b: Batch): seq<bytes> {
    (if b.report.records > 0 then [DroppedSummary(b.report)] else []) + b.records
  }

  /** What a batch weighs: each string and one more byte. */
  function Weight(records: seq<bytes>): nat {
    if records == [] then 0 else Weight(records[..|records| - 1]) + |records[|records| - 1]| + 1
  }

  // ---------------------------------------------------------------- the class

  class BatchEmitter {
    var records: seq<bytes>
    var byteCount: nat
    var droppedRecords: nat
    var droppedBatches: nat
    var droppedBytes: nat
    var disconnected: bool

    function Snapshot(): Emitter
      reads this
    {
      Emitter(records, byteCount, Drops(droppedRecords, droppedBatches, droppedBytes), disconnected)
    }

    constructor ()
      ensures Snapshot() == EMPTY
    {
      records, byteCount, disconnected := [], 0, false;
      droppedRecords, droppedBatches, droppedBytes := 0, 0, 0;
    }

    method NoteDrop(lost: Drops)
      modifies this
      ensures Snapshot() == NoteDropped(old(Snapshot()), lost)
    {
      droppedRecords := Saturated(droppedRecords + lost.records);
      droppedBatches := Saturated(droppedBatches + lost.batches);
      droppedBytes := Saturated(droppedBytes + lost.byteCount);
    }

    method Flush(answer: SendResult) returns (effects: seq<Effect>)
      modifies this
      ensures Outcome(Snapshot(), effects) == FlushOnce(old(Snapshot()), answer)
    {
      if disconnected || (records == [] && droppedRecords == 0) {
        return [];
      }
      var actualRecords, actualBytes := |records|, byteCount;
      var batch := Batch(NOTHING, records);
      records, byteCount := [], 0;
      if droppedRecords > 0 {
        batch := batch.(report := Drops(droppedRecords, droppedBatches, droppedBytes));
      }
      match answer {
        case Accepted =>
          droppedRecords, droppedBatches, droppedBytes := 0, 0, 0;
          effects := [Delivered(batch)];
        case Full =>
          if actualRecords > 0 {
            NoteDrop(Drops(actualRecords, 1, actualBytes));
          }
          effects := [Refused(batch.records)];
        case Disconnected =>
          disconnected := true;
          effects := [Severed(batch.records)];
      }
    }

    method Push(record: bytes, before: SendResult, after: SendResult) returns (effects: seq<Effect>)
      modifies this
      ensures Outcome(Snapshot(), effects) == PushOnce(old(Snapshot()), record, before, after)
    {
      effects := [];
      if disconnected {
        return;
      }
      var recordBytes := |record| + 1;
      if recordBytes > PAYLOAD_LIMIT {
        NoteDrop(Drops(1, 1, recordBytes));
        return [Oversize(record)];
      }
      if records != [] && (|records| >= PAYLOAD_RECORDS || byteCount + recordBytes > PAYLOAD_LIMIT) {
        effects := Flush(before);
      }
      var more := Append(record, after);
      assert effects + [] == effects;
      effects := effects + more;
    }

    /** The record joins the batch, which goes out if it is full. */
    method Append(record: bytes, after: SendResult) returns (effects: seq<Effect>)
      modifies this
      ensures var taken := Appended(old(Snapshot()), record);
              Outcome(Snapshot(), effects) == if IsFull(taken) then FlushOnce(taken, after) else Outcome(taken, [])
    {
      byteCount := byteCount + |record| + 1;
      records := records + [record];
      assert Snapshot() == Appended(old(Snapshot()), record);
      effects := [];
      if |records| >= PAYLOAD_RECORDS || byteCount >= PAYLOAD_LIMIT {
        effects := Flush(after);
      }
    }
  }
}
