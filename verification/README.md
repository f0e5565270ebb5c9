# Verified model of the router's protocol code

This Dafny project models the parts of the Codex router whose correctness depends on many steps working together,
and proves properties of them for all inputs, all runs and all answers of the outside world.

- **The request rewriter** of the auth adapter: an incremental HTTP/1.1 parser that replaces the head of every request
  by one with the local key and copies bodies (sections 6.3 and 7.1 of RFC 9112, section 7.6.1 of RFC 9110).
  `RequestHead` and `HeadLaws` treat one head, `StreamRewriter` the parser class, `Fragmentation` the cutting of a
  stream into calls, `MessageGrammar` and `StreamLaws` the parser-free specification, `Numerals` and `LineGrammar` its
  numbers and lines, `HeadFraming` what a head says, `StreamErrors` why bytes are refused, `UnfinishedStreams` streams
  that have not ended, `BurstBound` and `BurstLimit` the size limits, `StreamExamples` requests at the limits,
  `HeadReceiver` the reading of the first head.
- **The relay** between two sockets (`Relay`, `RelayProgress`): two bounded buffers, half-closes, partial and broken
  sends.
- **The journaled cutover** (`Cutover`, `CutoverLaws`, `CutoverFailures`, `CutoverRunner`): every write, copy and
  command is a step that may succeed, fail or be the last before a crash.
- **The log tailer and the batch emitter** (`LogTail`, `LogTailLaws`, `LogTailProgress`, `LogBatches`,
  `LogBatchLaws`, `LogBatchMeaning`).
- **OAuth slots and priorities** (`OAuthSlots` and the other OAuth modules): replication within a provider and distinct
  priorities, with the iteration order of maps left open; `OAuthMeaning` and `OAuthFairness` say what a new slot and an
  assignment are.
- **Shutdown order** (`Shutdown`), **no-proxy lists** (`NoProxy`, `NoProxyLaws`, `NoProxyMeaning`) and **CONNECT
  authorities** (`ConnectAuthority`, `ConnectMeaning`).

`Bytes`, `Text`, `Trimming`, `Sorting` and `Wrappers` are shared. Where the code updates state in place the model does
too: a class or a method with loops, proved equal to a function, and the laws are about that function. The modules named
after meanings, progress or failures say what those functions are, in terms that do not call them. Sockets, channels,
files, commands and clocks are arguments: sequences of answers or an oracle, over which every theorem quantifies.

## Model

| member | source | states |
|---|---|---|
| StreamLaws.AcceptsWhatIsSpecified | scripts/codex_auth_adapter.py:214-333 | The whole-stream specification: one call accepts a stream with output `out` if and only if the stream is a sequence of well-formed requests and `out` is each head rewritten and each body, chunk line, chunk and trailer copied. Accepted in pieces implies the same; short chunk-size lines give the converse for every cutting. |
| StreamLaws.EveryCuttingIsAccepted | scripts/codex_auth_adapter.py:263-268 | Exactly which streams of well-formed requests are accepted, with the specified output, however they are cut: those whose chunk-size lines, last chunks included, are all shorter than 8192 bytes. |
| Fragmentation.FragmentsAreOneFeed | scripts/codex_auth_adapter.py:214-327 | If every call of a fragmentation returns, one call with the whole stream returns, with the concatenated output and the same final state, pending bytes, remaining count and close flag. |
| Fragmentation.FeedTwice | scripts/codex_auth_adapter.py:214-327 | Two calls are one: whatever the second does, return or raise, the single call does the same with the first output in front. |
| Fragmentation.EveryFragmentationReturns | scripts/codex_auth_adapter.py:263-268 | Exactly when a stream that one call accepts is accepted however it is cut: if and only if every chunk-size line the parser takes is shorter than 8192 bytes. |
| StreamLaws.SecondRewriterChangesNothing | scripts/codex_auth_adapter.py:104-197 | A second rewriter with the same key gives back what the first emitted, byte for byte, if and only if every rewritten head is within 65536 bytes. |
| StreamLaws.LongRewrittenHeadIsRefused | scripts/codex_auth_adapter.py:228-236 | When one rewritten head is longer than that, the second rewriter raises. |
| StreamExamples.LongestHead | scripts/codex_auth_adapter.py:228-236 | A request of 65536 bytes that is accepted and whose rewriting is refused, for every key. |
| StreamExamples.LongLastChunk | scripts/codex_auth_adapter.py:263-268 | A chunked request whose last size line has 8192 digits: accepted whole, and not in every cutting. |
| StreamLaws.OutputFollowsInput | scripts/codex_auth_adapter.py:214-327 | At any point of any stream the bytes fed are accepted heads and copied bytes followed by the pending ones, and the output is those heads rewritten and those bytes unchanged. |
| UnfinishedStreams.UnfinishedStream | scripts/codex_auth_adapter.py:214-327 | Whatever calls have returned, the bytes they consumed begin a sequence of well-formed requests and the output is what the specification makes of them, if and only if trailers, when being read, have room left for the blank line that ends them. |
| MessageGrammar.GoodStreamIsForwarded | scripts/codex_auth_adapter.py:219-323 | Completeness of the parser: every sequence of well-formed requests, whose chunk-size lines spell their sizes in hexadecimal and whose trailers are field lines, is accepted to its end and forwarded as specified. |
| MessageGrammar.AcceptedStreamIsGood | scripts/codex_auth_adapter.py:219-333 | Soundness of the parser: a stream accepted to its end can be read as a sequence of well-formed requests. |
| LineGrammar.SizeOfIs | scripts/codex_auth_adapter.py:263-282 | Exactly what a chunk-size line announces: n, if and only if it is n in hexadecimal digits of either case, with any zeros in front, white space around and perhaps an extension after a semicolon. |
| Numerals.HexadecimalIs | scripts/codex_auth_adapter.py:274 | Hexadecimal digits are read as n if and only if they spell n digit by digit, after zeros. |
| Numerals.DecimalIs | scripts/codex_auth_adapter.py:96 | So are decimal digits. |
| LineGrammar.StripIs | scripts/codex_auth_adapter.py:122-131 | Exactly what stripping leaves: the trimmed middle with nothing but white space around it. |
| LineGrammar.TokenCharIs | scripts/codex_auth_adapter.py:22 | A token character is any visible one but the delimiters. |
| LineGrammar.HeaderIs | scripts/codex_auth_adapter.py:119-131 | A line is taken as a header, with this name and value, if and only if it is a token, a colon and the value. |
| LineGrammar.TrailerIs | scripts/codex_auth_adapter.py:303-323 | A trailer line is taken if and only if it is one of those. |
| LineGrammar.RequestLineIs | scripts/codex_auth_adapter.py:109-117 | A line is taken as a request line if and only if it is a method, a target and one of the two versions, with one space between them. |
| LineGrammar.KeyIs | scripts/codex_auth_adapter.py:30-45 | Exactly the keys taken, text or bytes: ASCII, 1 to 2048 bytes, no CR or LF; and they are not changed. |
| HeadFraming.HeadIs | scripts/codex_auth_adapter.py:104-197 | A head is accepted if and only if it consists of a request line and header lines whose framing fields are acceptable, said without the steps of the code. |
| HeadFraming.LengthOfIs | scripts/codex_auth_adapter.py:89-101 | The content length is n if and only if there are length items and each spells n in decimal. |
| HeadFraming.ChunkedLastIs | scripts/codex_auth_adapter.py:144-154 | The coding is chunked if and only if the last coding listed is, and no other. |
| HeadFraming.OptionsAre | scripts/codex_auth_adapter.py:78-86 | The connection options are exactly the listed items, in lower case. |
| HeadFraming.FramingIs | scripts/codex_auth_adapter.py:133-166 | The body of an accepted head is framed as its fields say: raw for CONNECT and upgrades, else chunked, else of that length, else none; and the connection ends after it exactly when it says close. |
| HeadFraming.RefusedForIs | scripts/codex_auth_adapter.py:133-155 | Exactly which error the fields of a head give: the first complaint, in the order of the code, that applies. |
| StreamErrors.RaisesExactlyWhen | scripts/codex_auth_adapter.py:219-327 | Which error a turn raises, and that it raises none else: a head of more than 65536 bytes, what is wrong with a complete one, bytes after the close, a chunk-size line of more than 8192 bytes or without a size, a chunk not followed by CRLF, trailers of more than 65536 bytes, a trailer that is no field line. |
| StreamErrors.RefusedExactlyWhen | scripts/codex_auth_adapter.py:214-327 | A call raises an error exactly when turns that emit lead it to bytes with which that is wrong. |
| StreamErrors.HeadWrongIs | scripts/codex_auth_adapter.py:104-166 | Exactly which error a complete head gives: its request line, else a header line that is none, else what its fields are refused for. |
| HeadFraming.RequestLineStays | scripts/codex_auth_adapter.py:176 | The request line goes upstream as it came. |
| HeadFraming.RewrittenLinesAre | scripts/codex_auth_adapter.py:168-190 | What a rewritten head says under every name: the local key under Authorization, one connection option of its own, no hop-by-hop header, Upgrade only for an upgrade, and otherwise the lines there were. |
| HeadLaws.RewriteIsFixedPoint | scripts/codex_auth_adapter.py:104-197 | Rewriting a rewritten head gives it back with the same body mode, length and close flag, and the rewritten head still ends at its first blank line. |
| HeadLaws.DecideAgain | scripts/codex_auth_adapter.py:133-166 | The framing decision on the rewritten headers is the one taken on the original ones. |
| HeadLaws.OnlyTheLocalKeyLeaves | scripts/codex_auth_adapter.py:168-190 | Every Authorization header that goes upstream is the local key; no proxy credential, keep-alive or TE header and nothing the client named as connection option does, save the upgrade pair. |
| HeadLaws.EndToEndHeadersUnchanged | scripts/codex_auth_adapter.py:176-184 | Every header that is not hop-by-hop arrives with the same values in the same order. |
| HeadLaws.RewriteGrowth | scripts/codex_auth_adapter.py:186-197 | An accepted head has at least 16 bytes and grows by at most the key and 24 bytes, one more if it has at least 34 bytes. |
| RequestHead.HeaderTokens | scripts/codex_auth_adapter.py:78-86 | The nested loops compute the set of connection options, or fail exactly when an item is no token. |
| RequestHead.ContentLength | scripts/codex_auth_adapter.py:89-101 | The nested loops compute the common length, none, or the error of the first item that is no number or has more digits than `int` takes, or else of conflicting items. |
| RequestHead.ReadHeaders | scripts/codex_auth_adapter.py:119-131 | The header loop yields exactly the parsed lines and their stripped values by name, or fails exactly when a line is no header. |
| RequestHead.KeptLines | scripts/codex_auth_adapter.py:176-184 | The filtering loop keeps exactly the lines of the headers that are to be passed on, in order. |
| RequestHead.RewriteAndFrame | scripts/codex_auth_adapter.py:104-197 | The whole rewriting, with every error condition in the order of the code, equals the function the head laws are about. |
| StreamRewriter.ValidateApiKey | scripts/codex_auth_adapter.py:30-45 | A key given as text or bytes is refused if it is not ASCII or is empty, longer than 2048 bytes or broken by CR or LF, and is otherwise taken as it is. |
| StreamRewriter.CreateRewriter | scripts/codex_auth_adapter.py:206-212 | A new rewriter is in the initial state with its validated key, or refused with the validation error. |
| StreamRewriter.RequestStreamRewriter.Feed | scripts/codex_auth_adapter.py:214-327 | One call on the mutable parser ends in the state, with the output or the error, of the recursive run over pending plus new bytes. |
| StreamRewriter.RequestStreamRewriter.HeadTurn | scripts/codex_auth_adapter.py:228-252 | One turn in the head state does what the head step specifies, errors included. |
| StreamRewriter.RequestStreamRewriter.ChunkSizeTurn | scripts/codex_auth_adapter.py:263-282 | One turn in the chunk-size state does what the chunk-size step specifies. |
| StreamRewriter.RequestStreamRewriter.TrailerTurn | scripts/codex_auth_adapter.py:303-323 | One turn in the trailer state does what the trailer step specifies. |
| StreamRewriter.RequestStreamRewriter.Finish | scripts/codex_auth_adapter.py:329-333 | The end of the stream is refused exactly inside a request. |
| BurstBound.BurstBounded | scripts/codex_auth_adapter.py:11-18 | One read of at most 1024 bytes completes at most 64 heads; its output is at most pending + data + 64 (key + 25) bytes, and at most data + 131072 bytes for keys of at most 1000 bytes. |
| BurstLimit.BurstLimitIsExact | scripts/codex_auth_adapter.py:482-492 | For any valid key and buffer limit, some run of the relay from a fresh rewriter ends in the burst error if and only if the key is longer than 1000 bytes. |
| BurstLimit.LongKeyOverruns | scripts/codex_auth_adapter.py:482-492 | The run that does it for every longer key: a head trickles in up to its last byte, then one read ends it and brings 63 requests more. |
| HeadReceiver.HeadVerdictIs | scripts/codex_auth_adapter.py:48-75 | The bytes come to a head exactly when it is their shortest beginning that ends with a blank line, and has at most 65536 bytes. |
| HeadReceiver.RefusalIs | scripts/codex_auth_adapter.py:48-75 | Too large exactly when there are more bytes and none of their beginnings up to 65536 ends with a blank line; ended too early exactly when there are no more and none does. |
| HeadReceiver.ReceiveHead | scripts/codex_auth_adapter.py:48-75 | However the bytes arrive, the outcome is that of the bytes they add up to: the head and what was read past it, too large, or ended too early. |
| Relay.UpstreamReceivesTheRequests | scripts/codex_auth_adapter.py:561-585 | End to end: when the relay reports both directions done and the upstream did not break, the client sent well-formed requests and the upstream received exactly those requests rewritten, then the half-close. |
| Relay.Serve | scripts/codex_auth_adapter.py:378-512 | The relay over its mutable buffers and flags does, for every sequence of socket answers, what the pass function says; its two argument checks fail exactly as coded, with slack 131072 towards the right in the adapter and none in the proxy. |
| Relay.ServeTurn | scripts/codex_auth_adapter.py:431-512 | Whatever one pass meets, both directions stay first-in-first-out and bounded; it gives up with nothing registered only after a failed send; reporting both directions done means everything owed was sent and every half-close passed on; the burst error needs a key of more than 1000 bytes. |
| Relay.ServeAll | scripts/adaptive_proxy.py:255-323 | The same over every sequence of passes. |
| RelayProgress.PassEffect | scripts/codex_auth_adapter.py:431-512 | What one pass makes of each direction, given what was reported: reading stops exactly when its source ended, writing exactly when its target broke; a socket that has nothing yet changes neither parser nor pipe; bytes taken in are the beginning of those that came, bytes sent the beginning of those that waited. |
| RelayProgress.PassHandles | scripts/codex_auth_adapter.py:431-468 | A pass goes on exactly when something it waits for is reported, and ends with everything delivered exactly when both directions are. |
| RelayProgress.AbortsOnlyFor | scripts/codex_auth_adapter.py:466-494 | The relay aborts only when the rewriter raises on bytes that came, or its source ended inside a request. |
| RelayProgress.StaysOpen | scripts/adaptive_proxy.py:255-323 | Over every sequence of passes in which no source ends and no target breaks, all four halves stay open, and the relay does not end, unless the rewriter raises on bytes. |
| RelayProgress.CanBeEnded | scripts/adaptive_proxy.py:255-323 | Unless bytes are stranded or a request is unfinished, at most three passes in which both sources end and both targets take everything bring the relay to its regular end. |
| Relay.ReceiveFaithful | scripts/codex_auth_adapter.py:466-494 | A read keeps sent plus buffered equal to initial plus transformed input, asks for at least one byte and keeps the buffer bounded. |
| Relay.PushFaithful | scripts/codex_auth_adapter.py:496-512 | A write, partial, blocked or broken, keeps that equation until the target breaks, and never grows the buffer. |
| Relay.HalfFaithful | scripts/codex_auth_adapter.py:432-439 | The half-closes at the top of the loop keep it: writing is shut only when everything received has been sent. |
| Relay.StuckExactlyWhen | scripts/adaptive_proxy.py:255-281 | A direction is undelivered with no interest registered exactly when its target is closed and bytes remain for it. |
| Relay.StrandedByReadAfterBreak | scripts/adaptive_proxy.py:293-323 | One batch of events strands bytes of either direction exactly when a broken send to its target comes before a read from its source that brings bytes, and out of the rewriter if there is one. |
| Relay.GivesUpExactlyWhenStranded | scripts/adaptive_proxy.py:255-323 | When the loop returns of its own accord, it does so with nothing registered, rather than both directions done, if and only if some pass stranded bytes like that. |
| Relay.BytesLostToBrokenSend | scripts/adaptive_proxy.py:293-323 | The run that shows it: the relay returns with bytes read and never deliverable. |
| Relay.Direction.OnReadable | scripts/codex_auth_adapter.py:466-494 | The readable branch, with rewriter and error paths, equals the reception function. |
| Relay.Direction.OnWritable | scripts/codex_auth_adapter.py:496-512 | The writable branch equals the push function. |
| CutoverLaws.CrashSafety | codex-router-gui-rust/src/lifecycle_cutover.rs:179-286 | Over any number of runs with a crash or failure at any step: the durable stage is the last one recorded; one that calls for recovery stands beside the complete snapshot of its attempt, which holds nothing else; without one the legacy stack runs undisturbed; every command ran under its own durable stage; after a command that failed nothing happens but the begin of a rollback; old_start found every source as snapshotted; RollbackHealthy comes right after RollbackBegin, new_stop, restore, old_start and rollback_health, all successful; Committed comes after the six forward commands, successful, in order and with nothing else in between, and is last. |
| CutoverLaws.RepairMeans | codex-router-gui-rust/src/lifecycle_cutover.rs:179-201 | What the count of repairs means: these are the last events, in order, each successful, since the rollback began. |
| CutoverLaws.ProgressMeans | codex-router-gui-rust/src/lifecycle_cutover.rs:248-284 | What the count of progress means: so many forward commands succeeded, in order, with no other command, snapshot, restore or rollback in between. |
| CutoverLaws.SmoothRunCommits | codex-router-gui-rust/src/lifecycle_cutover.rs:215-286 | From every state earlier runs can leave, one run in which every step succeeds goes through, and ends committed, if and only if it was committed already or backup names are safe and the trees are there when the snapshot is taken. |
| CutoverFailures.FailedCommandIsRolledBack | codex-router-gui-rust/src/lifecycle_cutover.rs:248-284 | A run in which one forward command fails and every other step succeeds reports an error with RollbackHealthy in the journal, the right failure code, the legacy stack running and all four repairs done just before. |
| CutoverFailures.NoFailureIsLeft | codex-router-gui-rust/src/lifecycle_cutover.rs:248-284 | No run leaves a failed forward command as the last thing that happened, unless the program died there or the journal write that begins the rollback failed too. |
| CutoverFailures.RecoveryReports | codex-router-gui-rust/src/lifecycle_cutover.rs:236-238 | A recovery that goes through leaves RollbackHealthy with the cutover failure code and the attempts as they were. |
| CutoverFailures.CommitCounts | codex-router-gui-rust/src/lifecycle_cutover.rs:215-246 | A run that goes through leaves a journal with one attempt more, up to 2^32 - 1, and no failure code. |
| CutoverLaws.SafeNamesLeadInside | codex-router-gui-rust/src/lifecycle_cutover.rs:104-112 | A backup name is taken exactly when every part of it leads one level further into the snapshot directory. |
| CutoverLaws.RestoreBringsBack | codex-router-gui-rust/src/lifecycle_cutover.rs:146-161 | In such a run the restore of a recovery has every tree in place again. |
| CutoverLaws.RollbackKeeps | codex-router-gui-rust/src/lifecycle_cutover.rs:179-201 | A rollback interrupted anywhere keeps the crash invariant, and one that finishes leaves RollbackHealthy. |
| CutoverLaws.CreateKeeps | codex-router-gui-rust/src/lifecycle_cutover.rs:128-144 | Taking a snapshot while nothing needs recovery keeps the invariant, and a finished one holds every source. |
| CutoverLaws.RestoreAllCopies | codex-router-gui-rust/src/lifecycle_cutover.rs:146-161 | Restoring never changes the snapshot, touches no other tree, and when it finishes has brought back every saved one. |
| CutoverLaws.RestoreAfterInterruption | codex-router-gui-rust/src/lifecycle_cutover.rs:146-161 | A restore that finishes after one that was interrupted anywhere gives the same result. |
| CutoverRunner.Runner.Run | codex-router-gui-rust/src/lifecycle_cutover.rs:215-286 | The program over its mutable journal, snapshot and sources does what the run function says for every oracle. |
| CutoverRunner.Runner.RollBack | codex-router-gui-rust/src/lifecycle_cutover.rs:179-201 | So does the rollback. |
| CutoverRunner.Runner.TakeSnapshot | codex-router-gui-rust/src/lifecycle_cutover.rs:128-144 | So does taking a snapshot, loop included. |
| CutoverRunner.Runner.Restore | codex-router-gui-rust/src/lifecycle_cutover.rs:146-161 | So does restoring. |
| CutoverRunner.Runner.SetStage | codex-router-gui-rust/src/lifecycle_cutover.rs:92-102 | The journal in memory changes even if the write fails. |
| LogTailLaws.TailRefinesTheFile | codex-router-gui-rust/src/runtime_logs.rs:184-257 | On a file that only grows, under any schedule of calls and failures, the lines returned are the complete lines of at most 65536 bytes between the first kept offset and the current one, each once and in order; they are all of them exactly when no read stopped inside a line one byte over; the first kept offset starts a line exactly when the base does or the first positioned read succeeded. |
| LogTailProgress.CallAdvances | codex-router-gui-rust/src/runtime_logs.rs:184-257 | A call that finds a file and whose read succeeds moves the offset by the smaller of what is left and 262144 bytes, and says whether it was the first; from a truncated file it starts over, on a first call near the end. |
| LogTailProgress.FailureStays | codex-router-gui-rust/src/runtime_logs.rs:198-224 | A call whose read fails reads nothing; one that cannot open the file changes nothing. |
| LogTailProgress.CatchesUp | codex-router-gui-rust/src/runtime_logs.rs:184-257 | Whatever happened before, on a file that grows no more, one readable call more than its bytes fill reads of 262144 leaves the offset at its end, and the lines returned are all those up to there. |
| LogTailProgress.CompleteIsSplit | codex-router-gui-rust/src/runtime_logs.rs:235-255 | The lines to be returned of a text are its pieces between newlines within the limit, each without the carriage returns that the code takes off. |
| LogTailProgress.BeginsNearTheEnd | codex-router-gui-rust/src/runtime_logs.rs:198-211 | A growing file is read from 131072 bytes before the end it had when first seen, or from its start. |
| LogTailLaws.EveryScheduleIsExact | codex-router-gui-rust/src/runtime_logs.rs:184-257 | Over any schedule, with disappearing, truncated or unreadable files, the lines returned since the last fresh start are exactly the expected ones and at most 65536 bytes are pending. |
| LogTailLaws.CutsOnlyLose | codex-router-gui-rust/src/runtime_logs.rs:235-255 | Where reads stop can only lose lines, and does so exactly when one stops inside a line that is one byte over the limit. |
| LogTailLaws.NoCarriageReturns | codex-router-gui-rust/src/runtime_logs.rs:250-255 | Without carriage returns it never does. |
| LogTailLaws.CarriageReturnAtTheLimit | codex-router-gui-rust/src/runtime_logs.rs:235-255 | A line of exactly the limit, ended by CRLF, is returned by one schedule and lost by another. |
| LogTailLaws.FragmentAfterFailedRead | codex-router-gui-rust/src/runtime_logs.rs:198-224 | After a failed first read of a long file the next call returns the end of a line as a line. |
| LogTail.LogSource.ReadNewLines | codex-router-gui-rust/src/runtime_logs.rs:184-257 | The method on its four fields does what the read function says for every file state. |
| LogBatchLaws.NothingIsLostSilently | codex-router-gui-rust/src/runtime_logs.rs:72-144 | Over any run: records pushed are those delivered, buffered, dropped or lost with the channel; until the channel closes, while fewer than 2^64 are dropped, pushed equals delivered plus reported plus outstanding plus buffered. |
| LogBatchLaws.EveryRunIsSound | codex-router-gui-rust/src/runtime_logs.rs:72-144 | Over any run delivered records are a subsequence of those pushed, in order, and buffer and counters agree with the history. |
| LogBatchLaws.DropsAreReported | codex-router-gui-rust/src/runtime_logs.rs:106-128 | Every drop is in a delivered summary or outstanding, and the summaries sum up exactly while no counter can have saturated. |
| LogBatchLaws.BatchesStaySmall | codex-router-gui-rust/src/runtime_logs.rs:72-133 | Every batch delivered has at most 64 strings and 32768 bytes, its summary included. |
| LogBatchLaws.SummaryFits | codex-router-gui-rust/src/runtime_logs.rs:146-150 | The summary of any three 64-bit counters is shorter than the reserve of 256 bytes. |
| LogBatchMeaning.SummaryReadsBack | codex-router-gui-rust/src/runtime_logs.rs:146-150 | Read field by field, the summary gives each of the three names its own counter and no other number. |
| LogBatchMeaning.NothingLostWhileThereIsRoom | codex-router-gui-rust/src/runtime_logs.rs:72-133 | While the channel takes every batch, every record that fits is sent or waits, in order, and nothing is dropped. |
| LogBatchMeaning.CallWarranted | codex-router-gui-rust/src/runtime_logs.rs:72-133 | Nothing is given up without cause: a full channel, a closed one, or a record no batch has room for. |
| LogBatchMeaning.PushSendsOnlyWhenFull | codex-router-gui-rust/src/runtime_logs.rs:85-94 | A push sends a batch only when that has no room left for the record or for any. |
| LogBatches.BatchEmitter.Push | codex-router-gui-rust/src/runtime_logs.rs:72-95 | Pushing on the mutable emitter, with up to two flushes, equals the push function. |
| LogBatches.BatchEmitter.Flush | codex-router-gui-rust/src/runtime_logs.rs:97-133 | Flushing equals the flush function for each answer of the channel. |
| LogBatches.BatchEmitter.NoteDrop | codex-router-gui-rust/src/runtime_logs.rs:139-143 | The three counters saturate at 2^64 - 1. |
| OAuthSettled.SyncTwice | codex-router-gui-rust/src/logic.rs:2072-2075 | If each account is of one provider, any synchronisation of a synchronised configuration leaves it as it is, whatever the map orders. |
| OAuthDetermined.SyncIsDetermined | codex-router-gui-rust/src/logic.rs:2072-2075 | If each account is of one provider, any two results of one synchronisation agree on every entry there was, and on the new slots up to their order. |
| OAuthSettled.SyncSharesModels | codex-router-gui-rust/src/logic.rs:2088-2230 | After a synchronisation every selected account with a slot holds every canonical model that any selected account of its provider holds. |
| OAuthSettled.SyncKeepsWhatWasThere | codex-router-gui-rust/src/logic.rs:2072-2303 | Entries there before change at most their OAuth priority, and no pair of account and model is newly held twice. |
| OAuthSettled.ReplicatingAgain | codex-router-gui-rust/src/logic.rs:2095-2230 | A second replication adds nothing, even after priorities changed. |
| OAuthReplication.EveryoneHasEveryModel | codex-router-gui-rust/src/logic.rs:2183-2229 | Replication is a closure: every selected account of a known provider ends up with every model its provider shares. |
| OAuthReplication.NothingNewlyTwice | codex-router-gui-rust/src/logic.rs:2193-2196 | No new slot repeats a pair of account and canonical model. |
| OAuthMeaning.SyncAddsReplicas | codex-router-gui-rust/src/logic.rs:2183-2229 | Every slot a synchronisation adds is for a selected account a copy of the first slot of its provider and model: same model id and settings, chosen by the user, unset keys, and a base URL and platform named after the account where the template has none. |
| OAuthMeaning.AdditionsAreReplicas | codex-router-gui-rust/src/logic.rs:2183-2229 | So is every slot replication adds, with priority 1, also with platforms named for new accounts. |
| OAuthMeaning.PlatformIs | codex-router-gui-rust/src/logic.rs:2167-2181 | Exactly which platform an account is on: the first named for it, else that of its first slot. |
| OAuthMeaning.TemplateIsFirst | codex-router-gui-rust/src/logic.rs:2130-2162 | A template is the first slot of a selected account for its provider and model. |
| OAuthMeaning.SameProvider | codex-router-gui-rust/src/logic.rs:2077-2086 | Two platforms are of one provider if and only if they are the same name or two names of one family, case and space around aside. |
| OAuthMeaning.TwinsAreOne | codex-router-gui-rust/src/logic.rs:904-923 | The chatgpt and gpt forms of a plain model id are the same model if and only if it is not 5.6. |
| OAuthMeaning.CanonicalIgnoresThePath | codex-router-gui-rust/src/logic.rs:904-923 | A path in front of a plain model id does not matter. |
| OAuthMeaning.CanonicalIgnoresCase | codex-router-gui-rust/src/logic.rs:904-923 | Nor do capitals. |
| OAuthReplication.Additions | codex-router-gui-rust/src/logic.rs:2095-2230 | The loops, whatever order the maps are walked in, add exactly the missing slots, each once and as its template says, account by account in the selected order. |
| OAuthReplication.CollectTemplates | codex-router-gui-rust/src/logic.rs:2130-2162 | The first loop computes the first template for each provider and model, and the pairs present. |
| OAuthReplication.CollectPlatforms | codex-router-gui-rust/src/logic.rs:2167-2181 | The next two compute the platform of each account, names given first. |
| OAuthRange.PrioritiesFollowTheOrder | codex-router-gui-rust/src/logic.rs:2259-2293 | One slot ends up with a lower priority than another of its provider exactly when its account comes first: by least priority, then first slot; when all priorities are the same, by selected order, then id. |
| OAuthFairness.PrioritiesAreFairAndLeast | codex-router-gui-rust/src/logic.rs:2253-2293 | Exactly what a provider gives its accounts: of all tables that give everyone what it asks for (its priority up to 999, or anything when several accounts all have the same) and less than those behind it (by priority and first slot, or by the selection and then by id), the least. |
| OAuthRange.PrioritiesWithinTheTop | codex-router-gui-rust/src/logic.rs:2274-2293 | All priorities of a provider end within 1..=999 if and only if its accounts number at most 999 when nobody set any, and otherwise, for every p up to 999, at most 1000 - p accounts have a clamped priority of p or more. |
| OAuthRange.RoomForAll | codex-router-gui-rust/src/logic.rs:2253-2303 | That every group leaves room is enough even when accounts have several providers. |
| OAuthRange.OrderIsIrrelevantExactlyWhen | codex-router-gui-rust/src/logic.rs:2253-2293 | The assignment is the same for every order of the map of groups if and only if all providers of an account give it the same value. |
| OAuthRange.MapOrderDecides | codex-router-gui-rust/src/logic.rs:2253-2293 | The smallest case: an account with one slot of each of two providers may get the priority of either, so the order matters unless they are equal. |
| OAuthRange.AssignmentsShow | codex-router-gui-rust/src/logic.rs:2296-2303 | Two assignments give the same configuration only if they are the same. |
| OAuthSync.PrioritiesAreDistinct | codex-router-gui-rust/src/logic.rs:2253-2303 | Different accounts of a provider get different priorities, all at least 1, and the slots of one account the same. |
| OAuthSync.OnlyOneAssignment | codex-router-gui-rust/src/logic.rs:2253-2293 | If each account is of one provider there is one possible assignment. |
| OAuthSync.AssigningAgain | codex-router-gui-rust/src/logic.rs:2234-2303 | Assigning priorities again changes nothing. |
| OAuthSync.Group | codex-router-gui-rust/src/logic.rs:2235-2251 | The grouping loop builds, for every provider and no other, its list of accounts. |
| OAuthSync.AwardAll | codex-router-gui-rust/src/logic.rs:2253-2294 | Walking the groups in any order gives each account the value of one of its groups. |
| OAuthSync.RouterConfig.Sync | codex-router-gui-rust/src/logic.rs:2072-2075 | The method on the configuration replicates, then assigns. |
| OAuthPriority.GroupsAreMinimal | codex-router-gui-rust/src/logic.rs:2234-2251 | A group holds every account with a slot of the provider once, with its least priority and its first slot. |
| OAuthPriority.SpacedIsLeast | codex-router-gui-rust/src/logic.rs:2274-2292 | The values given out serve every wish, grow strictly, and are the least that do. |
| OAuthPriority.Probe | codex-router-gui-rust/src/logic.rs:2277-2288 | The probing loop stops, and with the fallback yields the larger of the wish and the next free value. |
| OAuthPriority.SpaceOut | codex-router-gui-rust/src/logic.rs:2274-2292 | So the whole loop computes that spacing, past saturation at 999 too. |
| OAuthPriority.WithinTheTop | codex-router-gui-rust/src/logic.rs:2274-2292 | The spacing of clamped wishes stays within 1..=999 if and only if each leaves room for those after it. |
| OAuthAwards.AwardsFollowTheOrder | codex-router-gui-rust/src/logic.rs:2259-2293 | Inside a group values grow along the order described. |
| OAuthAwards.AwardsAgain | codex-router-gui-rust/src/logic.rs:2253-2293 | A group that has its values assigned is assigned the same ones. |
| OAuthSlots.CanonicalTwice | codex-router-gui-rust/src/logic.rs:904-923 | Canonicalising twice is canonicalising once exactly unless the bare id is `chatgpt-5.6` or starts with white space. |
| Shutdown.BeforeTheParent | codex-router-gui-rust/src/platform.rs:283-312 | A process is closed before its parent if and only if it is on no parent cycle or has the smaller id. |
| Shutdown.BeforeEveryAncestor | codex-router-gui-rust/src/platform.rs:283-312 | A process on no cycle is closed before every process above it. |
| Shutdown.OrderedByDepth | codex-router-gui-rust/src/platform.rs:307 | Of two processes the deeper is closed first, and of two equally deep the one with the smaller id. |
| Shutdown.EveryProcessOnce | codex-router-gui-rust/src/platform.rs:288-311 | The result is a permutation of the process ids. |
| Shutdown.DepthIsTheWalk | codex-router-gui-rust/src/platform.rs:291-304 | The depth is the length of the one walk up that stops at a process without listed parent or met before. |
| Shutdown.DeeperThanParent | codex-router-gui-rust/src/platform.rs:291-304 | Off every cycle a process is one deeper than its parent; on one it is as deep. |
| Shutdown.WalkUp | codex-router-gui-rust/src/platform.rs:291-304 | The loop stops on every parent map, cyclic or not, with that depth. |
| Shutdown.ShutdownProcessIds | codex-router-gui-rust/src/platform.rs:283-312 | The loops and the sort compute the shutdown order. |
| NoProxyLaws.MergedList | codex-router-gui-rust/src/proxy.rs:135-162 | The merged list starts with the required entries, has no two entries alike but for case, and splits back into its entries. |
| NoProxyLaws.MergeAgain | codex-router-gui-rust/src/proxy.rs:135-162 | Merging a merged list gives it back. |
| NoProxyLaws.MergeNeverWidens | codex-router-gui-rust/src/proxy.rs:194-269 | Whatever target the merged list lets bypass is loopback or bypasses by some input list. |
| NoProxyLaws.MergeNarrows | codex-router-gui-rust/src/proxy.rs:148-154 | Exactly whom the merged list lets bypass: loopback targets, and those matched by a kept piece that is not a star before nothing but dots (unless the host is empty). |
| NoProxyLaws.MergeKeepsTheRest | codex-router-gui-rust/src/proxy.rs:148-154 | So nothing is lost when all pieces are kept and none is of that form. |
| NoProxyLaws.DroppingTheStar | codex-router-gui-rust/src/proxy.rs:148-151 | Dropping the star keeps the meaning of a piece exactly unless only dots follow it. |
| NoProxyLaws.CaseDoesNotMatter | codex-router-gui-rust/src/proxy.rs:155-158 | Pieces alike but for case match the same targets, so removing such duplicates is safe. |
| NoProxy.MergeNoProxy | codex-router-gui-rust/src/proxy.rs:135-162 | The nested loops compute the merged list. |
| NoProxy.PieceBypasses | codex-router-gui-rust/src/proxy.rs:212-266 | One pass of the matching loop decides whether a piece matches. |
| NoProxy.ProxyBypasses | codex-router-gui-rust/src/proxy.rs:201-268 | The loop decides whether the target bypasses. |
| NoProxyMeaning.NetworkMeans | codex-router-gui-rust/src/proxy.rs:225-236 | Exactly which addresses an entry network/prefix covers: if the network is an address and the prefix spells a number of bits, those of its family that agree with it in so many bits; else none. |
| NoProxyMeaning.InCidrIs | codex-router-gui-rust/src/proxy.rs:164-184 | An address is in a network if and only if the families agree, the prefix is within the width, and every bit below the prefix is the same. |
| NoProxyMeaning.LoopbackIs | codex-router-gui-rust/src/proxy.rs:206-208 | The loopback addresses are those in 127.0.0.0/8, and ::1. |
| NoProxyMeaning.ParseUnsignedIs | codex-router-gui-rust/src/proxy.rs:229 | A text is read as n if and only if n is in range and it is n in decimal after any zeros and perhaps a plus sign. |
| NoProxyMeaning.DomainMeans | codex-router-gui-rust/src/proxy.rs:251-259 | A pattern that begins with a dot, or a star and a dot, covers exactly the domain and what is below it. |
| NoProxyMeaning.PatternMeans | codex-router-gui-rust/src/proxy.rs:186-192 | Any other pattern covers the hosts that are the pattern with its stars filled in or, without stars, that are the pattern. |
| NoProxyMeaning.PortMeans | codex-router-gui-rust/src/proxy.rs:242-250 | An entry host:port covers exactly the targets of that port whose host the pattern covers. |
| NoProxyMeaning.BracketMeans | codex-router-gui-rust/src/proxy.rs:238-241 | A piece in brackets covers exactly what the pattern within them does, whatever follows. |
| NoProxyMeaning.SpecialMeans | codex-router-gui-rust/src/proxy.rs:216-224 | A star covers every target, and <local> exactly the names without a dot. |
| NoProxyMeaning.PiecesAre | codex-router-gui-rust/src/proxy.rs:142 | The pieces with their separators between them are the list. |
| NoProxyMeaning.SeparatorIs | codex-router-gui-rust/src/proxy.rs:142 | Entries are separated by commas, semicolons and the white space of Unicode. |
| NoProxyMeaning.ValidEntryIs | codex-router-gui-rust/src/proxy.rs:119-133 | An entry is taken over if and only if it is host characters and perhaps a slash and one to three digits. |
| NoProxyMeaning.LoopbackFirst | codex-router-gui-rust/src/proxy.rs:138-141 | Every merged list begins with the three loopback entries. |
| Trimming.TrimIs | codex-router-gui-rust/src/proxy.rs:143 | Exactly what trimming leaves: the trimmed middle with nothing but white space around it. |
| ConnectAuthority.ParseIsTheGrammar | scripts/adaptive_proxy.py:63-103 | A target is read as an authority if and only if the grammar writes that authority as the target with some port text. |
| ConnectMeaning.LabelledIs | scripts/adaptive_proxy.py:87-92 | A name is a host if and only if it is labels with dots between them. |
| ConnectMeaning.AddressIs | scripts/adaptive_proxy.py:78-84 | A bracketed host is taken if and only if it is an address, or one followed by a percent sign and a scope of at most 64 letters, digits, underscores, dots and hyphens. |
| ConnectMeaning.PortTextIs | scripts/adaptive_proxy.py:96-102 | A text is taken as a port if and only if it is a number from 1 to 65535 in decimal, with zeros in front as far as 4300 digits go. |
| ConnectAuthority.RoundTrip | scripts/adaptive_proxy.py:63-108 | Parsing, formatting and parsing again gives the same host and port, scopes and leading zeros included. |
| ConnectAuthority.FormatRewritesThePort | scripts/adaptive_proxy.py:106-108 | A written authority formats as itself with the port in plain decimal. |
| ConnectAuthority.FormatGivesItBack | scripts/adaptive_proxy.py:63-108 | Formatting gives back the very target exactly when its port has no leading zero. |

## Findings

What the code does not keep, with the input and the exact condition.

- A chunk-size line of 8192 bytes or more is accepted in one call and refused in another cutting
  (`StreamLaws.EveryCuttingIsAccepted`, an if and only if; `StreamExamples.LongLastChunk`).
- The burst limit of 128 KiB can be exceeded, and the relay aborted, exactly by keys of more than 1000 bytes; keys of up
  to 2048 bytes are allowed (`BurstLimit.BurstLimitIsExact`).
- A head near 65536 bytes is rewritten to one that a second rewriter refuses
  (`StreamLaws.SecondRewriterChangesNothing`, an if and only if; `StreamExamples.LongestHead`).
- Trailers of 65535 or 65536 bytes are taken, although the blank line that must follow them no longer fits
  (`UnfinishedStreams.UnfinishedStream`).
- When a send breaks and bytes are read for the same target later in the same batch of events, the relay ends with
  those bytes in a buffer that nobody will write (`Relay.GivesUpExactlyWhenStranded`, an if and only if;
  `Relay.BytesLostToBrokenSend`).
- A log line of exactly 65536 bytes before CRLF is returned or lost depending on where a read stops
  (`LogTailLaws.CutsOnlyLose`, `LogTailLaws.CarriageReturnAtTheLimit`).
- If the first positioned read of a long log fails, the end of a line is returned as a line
  (`LogTailLaws.TailRefinesTheFile`, `LogTailLaws.FragmentAfterFailedRead`).
- `canonical_route_model_id` is not idempotent: `chatgpt-5.6` becomes `gpt-5.6`, which becomes `gpt-5.6-sol`; and a space
  after the last slash is kept the first time (`OAuthSlots.CanonicalTwice`).
- More than 999 accounts without set priorities, or accounts crowded below 999, get priorities above 999
  (`OAuthRange.PrioritiesWithinTheTop`).
- When the providers of one account would give it different priorities, the iteration order of a map decides which it
  gets (`OAuthRange.OrderIsIrrelevantExactlyWhen`, an if and only if; `OAuthRange.MapOrderDecides`).
- `*.` followed by nothing but dots matches every host in an input list and none once merged
  (`NoProxyLaws.DroppingTheStar`, `NoProxyLaws.MergeNarrows`).
- On a parent cycle a process whose id is larger than its parent's is closed after it (`Shutdown.BeforeTheParent`).

## Left out

- Sockets, selectors, threads, deadlines and idle timers: what they answer is an argument, and a timeout is a pass
  without events.
- RequestHead.LengthOf: the limit of 4300 digits is the interpreter's default; one without it (CPython before 3.10.7) or
  with another is not modelled, and the ValueError it raises counts as one more head error. The same holds for
  ConnectAuthority.ParsePort.
- CutoverLaws.CrashSafety: the journal write is atomic, the removal and creation of the snapshot directory is one step,
  each tree is one value, the manifest is already parsed, no source and no backup of it lies inside another, and
  commands may rewrite source trees but neither snapshot nor journal. Symbolic links and updates of `updated_at` are
  left out.
- LogTailLaws.TailRefinesTheFile: for valid UTF-8 only; the lossy decoding of other bytes and what it does to the length
  of a line is not modelled, nor is a rotated file at least as long as the old one.
- LogBatches.BatchEmitter.Push: the saturation of `usize` sums is not modelled; no buffer comes near it.
- OAuthSettled.SyncTwice: an account is assumed to have one provider; without that the assignment may change with the
  order of a map. The same holds for OAuthDetermined.SyncIsDetermined.
- OAuthPriority.SpaceOut: priorities are unbounded integers; the code's `i32` overflows only past two billion accounts.
- OAuthSlots.NewSlot: settings a slot copies, and those it leaves at their default, are grouped in two records.
- OAuthFairness.PrioritiesAreFairAndLeast: the selection is taken to hold fewer than 2^64 ids, as an array does.
- NoProxyMeaning.NetworkMeans: addresses are taken to be numbers of 32 or 128 bits, as parsing one gives.
- NoProxy.PieceBypasses: URL and address parsing are functions with the few facts stated where used; hosts are taken to
  be in lower-case ASCII, as URL parsing leaves them.
- ConnectAuthority.Parse: whether a text is an IPv6 address is a predicate, of which only the colon is used.
- Relay.Serve: each event batch lists a socket at most once, and the effect of `shutdown` on the peer is not modelled.
- Credentials, process and registry queries, HTTP clients, the user interface, configuration migrations, error-code
  tables and redaction are not modelled: they are lookups or rest on answers of the operating system.
