# Trace pipeline model

A Dafny model of the asynchronous trace pipeline in `internal/trace/trace.go`: a
Gin middleware that turns each admitted request into a trace record (`Step`),
a bounded ingestion channel that drops records when it is full, a single worker
(`startWorker`) that collects records into batches and hands each batch to
`flush`, and the writer (`flush` / `flushWithRetry`) that writes a batch in
chunks of at most 500 records and retries a failed batch up to three times with
a linear backoff.

Goroutines, `select` and the ticker are replaced by explicit inputs: the worker
is driven by a schedule of wake-ups (`ChannelReady` / `TickerFired`, with
`Sent`, a request handler's non-blocking send, interleaved), and the
database is an oracle `create(attempt, j)` that says whether the `j`-th
`CreateInBatches` call of attempt `attempt` succeeds. The SHA-256 function is a
parameter `sha256: string -> Digest`.

Files (helpers such as `Flatten`, `Records`, which turns a list of arrivals
into record events, `Accepted`, the records the channel takes from the sends
of a schedule, and the loop predicates `Progress`, `Failed` and `WorkerInv`
with their step lemmas only serve the proofs):

- `record.dfy` (`TraceRecord`): the `Step` record, `Option`, and `Flatten`, the
  concatenation of a list of batches.
- `hex.dfy` (`Hex`): lower-case hex encoding of a byte string, as
  `hex.EncodeToString` does, and its injectivity.
- `queue.dfy` (`IngestionQueue`): the buffered channel as a class, with a bounded
  FIFO `items`. It has the non-blocking send, a receive and close.
- `assembler.dfy` (`BatchAssembler`): the worker's state machine.
  - `OnEvent` handles one event and `Run` a sequence of events; both are pure.
  - Lemmas about `Run`: conservation, ordering and the threshold invariant.
  - `StartWorker` is the imperative loop that consumes the channel. It is
    proved against `Run`.
- `writer.dfy` (`PersistenceWriter`):
  - `Chunks` specifies the chunking, and `ChunksPartition` proves the partition.
  - `FlushWithRetry` is the chunk loop of one attempt.
  - `Flush` is the retry loop, with its recorded delays.
- `middleware.dfy` (`Middleware`): default extractors and filter, the default
  trace ID, option folding, the admission decision and the enqueue of the record.
- `slicereuse.dfy` (`SliceReuse`): how `buf`'s backing array is reused after a
  flush (see Findings).

The intended behaviour of the pipeline differs from the code in a few places.
The model follows the code:

- The retry count (3) and the chunk size (`min(500, len(logs))`) are constants,
  because the code hard-codes them. They are not configuration.
- On close, the worker's remaining batch goes through `flush`. Like every other
  flush, that write runs asynchronously, not synchronously. The model ends at the
  hand-off to `flush`.
- The code never closes the channel. Close is modelled anyway, because the worker
  handles a closed channel (`ok == false`).
- A batch handed to `flush` is meant to belong to the writer alone and never to
  change again. The code, however, reuses `buf`'s backing array after handing it
  to `flush`; see Findings.

## Model

| member | source | states |
|---|---|---|
| Hex.Encode | internal/trace/trace.go:62 | the encoding has two characters per byte, all of them lower-case hex digits |
| Hex.EncodeInjective | internal/trace/trace.go:62 | two byte strings with the same hex encoding are equal |
| IngestionQueue.Channel.constructor | internal/trace/trace.go:104 | a new channel is empty and open, and its capacity is `BufferSize` |
| IngestionQueue.Channel.TrySend | internal/trace/trace.go:174-179 | the record is appended at the tail exactly when fewer than `capacity` records are buffered; otherwise the queue is unchanged (dropped); never more than `capacity` records |
| IngestionQueue.Channel.Receive | internal/trace/trace.go:191-192 | buffered records come out oldest first even after close; an empty closed channel reports closed (`ok == false`), and an empty open one is not ready |
| IngestionQueue.Channel.Close | internal/trace/trace.go:191-198 | closing keeps the buffered records and makes the channel closed |
| BatchAssembler.OnEventSpec | internal/trace/trace.go:189-211 | one select iteration: no record lost, duplicated or reordered; at most one batch handed off and earlier ones untouched; a record flushes exactly when the batch reaches `batchSize`; a tick flushes a non-empty batch and leaves an empty one unchanged; close drains and stops; the threshold invariant is preserved |
| BatchAssembler.RunStopped | internal/trace/trace.go:192-197 | after the loop has returned, further events change nothing |
| BatchAssembler.RunConservation | internal/trace/trace.go:189-211 | for any events, the handed-off batches followed by `buf` are the received records in receive order |
| BatchAssembler.RunInv | internal/trace/trace.go:200-209 | after every event, `len(buf)` is below the threshold, no empty batch has been handed off, and `buf` is empty once stopped |
| BatchAssembler.RunKeepsHandedOff | internal/trace/trace.go:195-208 | batches handed off earlier are never changed by later events; new batches are only appended |
| BatchAssembler.RunBelowThreshold | internal/trace/trace.go:200-201 | records that keep `buf` below `batchSize` are appended to it and nothing is flushed |
| BatchAssembler.SizeTriggeredFlush | internal/trace/trace.go:200-204 | `batchSize` records arriving one after another are handed off as exactly one batch, and `buf` is empty afterwards |
| BatchAssembler.TickFlushesPartialBatch | internal/trace/trace.go:205-209 | a tick after fewer than `batchSize` records hands them off as one batch; with no records it hands off nothing |
| BatchAssembler.CloseDrainsBatch | internal/trace/trace.go:191-198 | closing after fewer than `batchSize` records hands them off as one final batch (none if empty) and stops |
| BatchAssembler.Handle | internal/trace/trace.go:191-209 | the body of the select case that fired computes exactly the step of the state machine |
| BatchAssembler.Select | internal/trace/trace.go:174-191 | a ticker wake-up yields a tick and leaves the channel alone; a channel wake-up takes the head record, reports closed on a closed and drained channel, or keeps waiting on an empty open one; a handler's send observes nothing and enqueues its record at the tail exactly when the open channel has room |
| BatchAssembler.ObserveDelivered | internal/trace/trace.go:191-200 | the select receives at most one record per channel wake-up; with no sends during the run, those are the oldest on the channel, one per channel wake-up, as long as any are buffered |
| BatchAssembler.ObserveCloses | internal/trace/trace.go:191-197 | on a closed channel, a channel wake-up beyond the buffered records observes the closed report |
| BatchAssembler.StartWorker | internal/trace/trace.go:183-212 | what the select observes is exactly what the schedule and the channel's contents determine (a tick per ticker wake-up, the head record per channel wake-up, the closed report on a closed, drained channel); records sent while the worker runs join the channel's tail when there is room, and the records the worker takes followed by those left on the channel are the initial ones followed by the accepted sends; at most one record is taken per channel wake-up, and with no sends the worker consumes the first `min(channel wake-ups, buffered)` records; the handed-off batches followed by `buf` are exactly those records, in order; batches are non-empty and `buf` stays below the threshold; it returns only on a closed, drained channel with everything handed off, and it does return once the channel case has fired more often than there were buffered records |
| PersistenceWriter.ChunkSize | internal/trace/trace.go:248 | the chunk length is `len(logs)` below 500 and 500 otherwise; it is positive for a non-empty batch |
| PersistenceWriter.ChunksFromPartition | internal/trace/trace.go:251-254 | the slices from index `i` onwards concatenate to `logs[i:]`; each has 1 to `k` records and all but the last exactly `k` |
| PersistenceWriter.ChunksFromAt | internal/trace/trace.go:251-254 | the `j`-th slice starts `j * k` records after `i` and ends at `min(start + k, len(logs))` |
| PersistenceWriter.ChunksPartition | internal/trace/trace.go:248-254 | the chunks of a batch concatenate to the batch; each is non-empty and at most 500 long; all but the last have length `min(500, len(logs))`; chunk `j` is `logs[j*k:min(j*k+k, len)]` |
| PersistenceWriter.ChunksOf1200 | internal/trace/trace.go:248-254 | a batch of 1200 records is written as chunks of 500, 500 and 200 |
| PersistenceWriter.ProgressStep | internal/trace/trace.go:251-258 | a chunk write that succeeds moves the attempt on to the next slice, with all chunks so far written |
| PersistenceWriter.ProgressFail | internal/trace/trace.go:255-257 | a chunk write that fails makes the attempt fail; the error names the first and last index of the failed chunk |
| PersistenceWriter.ProgressDone | internal/trace/trace.go:251-260 | an attempt that got past the last slice wrote every chunk and succeeds |
| PersistenceWriter.FlushWithRetry | internal/trace/trace.go:246-261 | chunks are written in order from the first, none skipped; the attempt returns no error exactly when every chunk write succeeds, and then all chunks were written; otherwise it stops at the first failed chunk, and the error carries that chunk's first and last index (`i`, `end-1`) and the attempt number |
| PersistenceWriter.Flush | internal/trace/trace.go:214-243 | an empty batch writes nothing; there are 1 to 3 attempts; each writes the chunks in order from the first, at least one, all but the last succeeding, and a failed attempt stops at its first failing chunk; the sleep after failed attempt `a` is `a` seconds, so sleeps strictly increase, with none after the last attempt; retries stop at the first success, which persists all `len(logs)` records; after three failures the batch is abandoned, and the error reported is the third attempt's, naming its failing chunk's first and last record; persisted exactly when one of attempts 1..3 succeeds |
| Middleware.DefaultTraceId | internal/trace/trace.go:60-63 | the trace ID is the user ID, a colon, and 64 lower-case hex digits |
| Middleware.DefaultTraceIdInjective | internal/trace/trace.go:60-63 | equal default trace IDs have equal user IDs and equal token digests |
| Middleware.ApplyOptionsAppend | internal/trace/trace.go:137-139 | applying `a ++ b` is applying `a`, then `b` |
| Middleware.UnsetFieldKept | internal/trace/trace.go:70-139 | a field that no option can change keeps its default; a `With…` option changes only its own field, any other option may change every field |
| Middleware.LastOptionWins | internal/trace/trace.go:137-139 | the last option that can change a field decides it from the configuration before it; a `With…` option decides it outright, over earlier options and the default |
| Middleware.MiddlewareWithConfig | internal/trace/trace.go:128-139 | the configuration is the defaults with each option (a `With…` option or any other update of the configuration) applied in order |
| Middleware.Admit | internal/trace/trace.go:141-172 | a record is produced exactly when the filter accepts the request and the user ID and token are both non-empty; it carries that user ID, the generated trace ID, the request path, the status and the timestamp |
| Middleware.DefaultAdmission | internal/trace/trace.go:52-58 | with the defaults, a request is traced exactly when the `user_id` and `access_token` query parameters are non-empty, under the default trace ID derived from them |
| Middleware.Handle | internal/trace/trace.go:141-180 | a request that is not admitted leaves the queue alone; an admitted record is enqueued at the tail exactly when the queue has room and is dropped otherwise |
| SliceReuse.AppendInPlace | internal/trace/trace.go:200 | `append` with spare capacity writes the record into the next cell of the same backing array and changes no other cell |
| SliceReuse.FillBatch | internal/trace/trace.go:200 | the records of a batch appended to an empty slice occupy its first cells, in order, and the cells after them keep their values |
| SliceReuse.AsWrittenReuse | internal/trace/trace.go:203 | as written: after `buf = buf[:0]` and one more append, the slice handed to the writer reads the new record in place of the batch's first one, so it differs from the batch flushed |
| SliceReuse.CopyOnFlush | internal/trace/trace.go:200-203 | corrected: `flush` gets a copy of `buf` while `buf` keeps reusing its array; the writer reads exactly the batch that was flushed, and `buf` holds just the next record |

## Left out

- Goroutines, `select` nondeterminism and the ticker. The worker is driven by a
  given schedule of wake-ups, which also places the request handlers' sends
  between the select's cases, and a tick is an event. Writer goroutines
  running at the same time as the worker and as each other are not modelled.
  `Flush` describes one batch on its own.
- `Start`'s database setup: `cfg.DB.DB()`, the pool settings, `AutoMigrate` and
  its error returns (lines 106-116). These are foreign calls.
- `CreateInBatches` is an oracle. The model does not say what the database
  stores, only which calls succeed.
- `time.Sleep`, `time.Now`, `time.Since` and the latency measurement. Delays
  are recorded as whole seconds. Status, latency and timestamp are parameters
  of `Admit`.
- The internals of SHA-256. The hash is a parameter.
- The gin context accessors (`c.Query`, `c.FullPath`, `c.ClientIP`, the request
  method and user agent) and `c.Next()`. A request is a `Context` value whose
  query map holds the first value of each parameter.
- `log.Printf` and `recover`. They only report; no panic is modelled.
- IngestionQueue.Channel.TrySend: on an unbuffered channel (`BufferSize` 0) a
  send succeeds when the worker is waiting in its receive, but the model always drops.
- IngestionQueue.Channel.constructor: a negative `BufferSize` is not modelled; on one,
  `make` panics (line 104). The capacity is a `nat`.
- A non-positive flush interval, on which `time.NewTicker` panics.
- BatchAssembler.Select: a send on a closed channel, which panics in Go, leaves the
  channel unchanged here. The code never closes the channel.
- BatchAssembler.StartWorker: a negative `batchSize` is not modelled; on one,
  `make` panics (line 187). `batchSize` is a `nat`.
- Middleware.MiddlewareWithConfig: an option that sets a field to nil is not modelled,
  because Dafny functions are total. With such an option a request panics when it reaches the
  call of the nil field: the filter at line 143, the user-ID extractor at line 148, the token
  extractor at line 149, or the trace-ID generator at line 156 (only for a request that passes
  the filter and has a non-empty user ID and token).
  Any other option is modelled, as `Custom`, an arbitrary update of the configuration.
- `Middleware()` is `MiddlewareWithConfig` with no options, so it has no member
  of its own.
- main.go is not part of this model.
- BatchAssembler.StartWorker: proves only that the loop stops once the channel case has fired more often than there were buffered records. It does not prove that the scheduler ever fires it.

## Findings

| source | as written | input that shows it | evidently intended | confidence | as-written member | corrected member |
|---|---|---|---|---|---|---|
| internal/trace/trace.go:200-209 | after `flush(db, buf)` the worker resets with `buf = buf[:0]` and keeps appending into the same backing array, while the writer goroutine started by `flush` (line 219) still holds a slice of that array | `batchSize` 2: records r1 and r2 are flushed, then r3 arrives before the goroutine reads its slice; the writer sees r3, r2 and never r1 | the writer gets a batch that no later append can change, while `buf` keeps reusing its storage (the reuse at lines 203 and 208 is deliberate); for example, `flush` is handed a copy, `append([]Step(nil), buf...)` | not executed | SliceReuse.AsWrittenReuse | SliceReuse.CopyOnFlush |

The rest of the model follows the corrected behaviour. In `BatchAssembler`,
`flush` appends an immutable value to `handedOff`, and
`BatchAssembler.RunKeepsHandedOff` proves that no later event changes a
handed-off batch.
