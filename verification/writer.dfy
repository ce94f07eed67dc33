/** The persistence writer: `flush` retries a batch up to three times with a
    linear backoff, and each attempt (`flushWithRetry`) writes the batch in
    chunks of at most 500 records, stopping at the first chunk that fails.
    The database is an oracle: `create(a, j)` says whether the `j`-th
    `CreateInBatches` call of attempt `a` succeeds. */
module PersistenceWriter {
  import opened TraceRecord

  /** Largest chunk written by one `CreateInBatches` call. */
  const MaxChunk: nat := 500
  /** Attempts per batch before it is abandoned. */
  const MaxRetries: nat := 3

  type CreateOracle = (nat, nat) -> bool

  /** The error of a failed attempt: the first and last record index of the
      failing chunk and the attempt number. */
  datatype CreateError = CreateError(first: nat, last: int, attempt: nat)

  /** What became of a batch handed to `flush`. */
  datatype FlushOutcome =
    | Skipped                    // empty batch: nothing is written
    | Persisted(count: nat)      // an attempt wrote every chunk
    | Abandoned(last: CreateError) // every attempt failed; the batch is dropped

  /** `min(500, len(logs))`: the chunk length of a batch of `n` records. */
  function ChunkSize(n: nat): (k: nat)
    ensures k <= MaxChunk && k <= n
    ensures n > 0 ==> k > 0
    ensures k == n || k == MaxChunk
  {
    if n < MaxChunk then n else MaxChunk
  }

  /** The slices `logs[i..min(i + k, |logs|)]`, `logs[i + k..]`, ... to the end. */
  function ChunksFrom(logs: seq<Step>, k: nat, i: nat): seq<seq<Step>>
    requires k > 0 && i <= |logs|
    decreases |logs| - i
  {
    if i == |logs| then []
    else
      var end := if i + k < |logs| then i + k else |logs|;
      [logs[i..end]] + ChunksFrom(logs, k, end)
  }

  /** The chunks one attempt writes, in order. */
  function Chunks(logs: seq<Step>): seq<seq<Step>>
  {
    if logs == [] then [] else ChunksFrom(logs, ChunkSize(|logs|), 0)
  }

  /** Attempt `attempt` issued the writes `calls`: at least one, and every
      one before the last succeeded. */
  predicate WroteUpTo(create: CreateOracle, attempt: nat, calls: seq<seq<Step>>)
  {
    calls != [] && forall j :: 0 <= j < |calls| - 1 ==> create(attempt, j)
  }

  /** Every chunk write of attempt `attempt` succeeds. */
  ghost predicate Succeeds(logs: seq<Step>, attempt: nat, create: CreateOracle)
  {
    forall j :: 0 <= j < |Chunks(logs)| ==> create(attempt, j)
  }

  /** The chunks partition `logs[i..]`: together they are `logs[i..]`, each
      has between one and `k` records, and all but the last have exactly `k`. */
  lemma {:induction false} ChunksFromPartition(logs: seq<Step>, k: nat, i: nat)
    requires k > 0 && i <= |logs|
    ensures Flatten(ChunksFrom(logs, k, i)) == logs[i..]
    ensures forall j :: 0 <= j < |ChunksFrom(logs, k, i)| ==> 0 < |ChunksFrom(logs, k, i)[j]| <= k
    ensures forall j :: 0 <= j < |ChunksFrom(logs, k, i)| - 1 ==> |ChunksFrom(logs, k, i)[j]| == k
    decreases |logs| - i
  {
    if i < |logs| {
      var end := if i + k < |logs| then i + k else |logs|;
      ChunksFromPartition(logs, k, end);
      FlattenCons(logs[i..end], ChunksFrom(logs, k, end));
      assert logs[i..end] + logs[end..] == logs[i..];
    }
  }

  /** Chunk `j` is the slice that starts `j * k` records after `i`. */
  lemma {:induction false} ChunksFromAt(logs: seq<Step>, k: nat, i: nat, j: nat)
    requires k > 0 && i <= |logs| && j < |ChunksFrom(logs, k, i)|
    ensures i + j * k < |logs|
    ensures ChunksFrom(logs, k, i)[j] == logs[i + j * k .. Min(i + j * k + k, |logs|)]
    decreases j
  {
    if j > 0 {
      var end := if i + k < |logs| then i + k else |logs|;
      ChunksFromAt(logs, k, end, j - 1);
      assert end == i + k;
      assert i + j * k == end + (j - 1) * k;
    }
  }

  /** The chunks of a batch partition it into pieces of at most 500 records;
      all but the last have length `min(500, |logs|)`, and chunk `j` is
      `logs[j * k..min(j * k + k, |logs|)]`. */
  lemma ChunksPartition(logs: seq<Step>)
    ensures Flatten(Chunks(logs)) == logs
    ensures forall j :: 0 <= j < |Chunks(logs)| ==> 0 < |Chunks(logs)[j]| <= MaxChunk
    ensures forall j :: 0 <= j < |Chunks(logs)| - 1 ==> |Chunks(logs)[j]| == ChunkSize(|logs|)
    ensures forall j :: 0 <= j < |Chunks(logs)| ==>
              j * ChunkSize(|logs|) < |logs| &&
              Chunks(logs)[j] == logs[j * ChunkSize(|logs|) .. Min(j * ChunkSize(|logs|) + ChunkSize(|logs|), |logs|)]
  {
    if logs != [] {
      var k := ChunkSize(|logs|);
      ChunksFromPartition(logs, k, 0);
      forall j | 0 <= j < |Chunks(logs)|
        ensures j * k < |logs| && Chunks(logs)[j] == logs[j * k .. Min(j * k + k, |logs|)]
      {
        ChunksFromAt(logs, k, 0, j);
      }
    }
  }

  /** A batch of 1200 records is written as chunks of 500, 500 and 200. */
  lemma ChunksOf1200(logs: seq<Step>)
    requires |logs| == 1200
    ensures |Chunks(logs)| == 3
    ensures |Chunks(logs)[0]| == 500 && |Chunks(logs)[1]| == 500 && |Chunks(logs)[2]| == 200
  {
    assert ChunksFrom(logs, 500, 1200) == [];
    assert ChunksFrom(logs, 500, 1000) == [logs[1000..1200]];
    assert ChunksFrom(logs, 500, 500) == [logs[500..1000], logs[1000..1200]];
  }

  /** A non-empty batch has at least one chunk. */
  lemma ChunksNonEmpty(logs: seq<Step>)
    requires logs != []
    ensures Chunks(logs) != []
  {
    var k := ChunkSize(|logs|);
    var end := if k < |logs| then k else |logs|;
    assert ChunksFrom(logs, k, 0) == [logs[0..end]] + ChunksFrom(logs, k, end);
  }

  /** One attempt, `flushWithRetry`: write the chunks in order and return
      the error of the first chunk that fails; no later chunk is written.
      `calls` lists the chunks handed to `CreateInBatches`. */
  method FlushWithRetry(logs: seq<Step>, attempt: nat, create: CreateOracle)
    returns (err: Option<CreateError>, calls: seq<seq<Step>>)
    // chunks are written from the first one, in order, none skipped
    ensures calls <= Chunks(logs)
    ensures forall j :: 0 <= j < |calls| - 1 ==> create(attempt, j)
    // the attempt succeeds exactly when every chunk write succeeds, and then all were written
    ensures err.None? <==> Succeeds(logs, attempt, create)
    ensures err.None? ==> calls == Chunks(logs)
    // otherwise the last chunk written is the first that failed; the error names its records
    ensures err.Some? ==> calls != [] && !create(attempt, |calls| - 1)
    ensures err.Some? ==> err.value == CreateError(|Flatten(calls[..|calls| - 1])|, |Flatten(calls)| - 1, attempt)
  {
    var n := |logs|;
    var k := ChunkSize(n);
    calls := [];
    var i := 0;
    ProgressStart(logs, attempt, create);
    while i < n
      invariant Progress(logs, attempt, create, i, calls)
      decreases n - i
    {
      var end := if i + k < n then i + k else n;
      var batch := logs[i..end];
      if !create(attempt, |calls|) {
        ProgressFail(logs, attempt, create, i, calls);
        calls := calls + [batch];
        err := Some(CreateError(i, end - 1, attempt));
        return;
      }
      ProgressStep(logs, attempt, create, i, calls);
      calls := calls + [batch];
      i := i + k;
    }
    ProgressDone(logs, attempt, create, i, calls);
    err := None;
  }

  /** The state of an attempt before the chunk at record `i`: `calls` are
      the chunks before it, all of them written. */
  ghost predicate Progress(logs: seq<Step>, attempt: nat, create: CreateOracle, i: nat, calls: seq<seq<Step>>)
  {
    && (i < |logs| ==> calls + ChunksFrom(logs, ChunkSize(|logs|), i) == Chunks(logs) && |Flatten(calls)| == i)
    && (i >= |logs| ==> calls == Chunks(logs))
    && forall j :: 0 <= j < |calls| ==> create(attempt, j)
  }

  lemma ProgressStart(logs: seq<Step>, attempt: nat, create: CreateOracle)
    ensures Progress(logs, attempt, create, 0, [])
  {
  }

  /** A chunk write that succeeds moves the attempt on to the next chunk. */
  lemma ProgressStep(logs: seq<Step>, attempt: nat, create: CreateOracle, i: nat, calls: seq<seq<Step>>)
    requires i < |logs| && Progress(logs, attempt, create, i, calls)
    requires create(attempt, |calls|)
    ensures var k := ChunkSize(|logs|);
            var end := if i + k < |logs| then i + k else |logs|;
            Progress(logs, attempt, create, i + k, calls + [logs[i..end]])
  {
    var k := ChunkSize(|logs|);
    var end := if i + k < |logs| then i + k else |logs|;
    assert ChunksFrom(logs, k, i) == [logs[i..end]] + ChunksFrom(logs, k, end);
    assert calls + [logs[i..end]] + ChunksFrom(logs, k, end) == Chunks(logs);
    FlattenSnoc(calls, logs[i..end]);
    if end == |logs| {
      assert calls + [logs[i..end]] == Chunks(logs);
    }
  }

  /** A chunk write that fails ends the attempt: every earlier chunk was
      written, the attempt does not succeed, and the error names the failed
      chunk's records. */
  lemma ProgressFail(logs: seq<Step>, attempt: nat, create: CreateOracle, i: nat, calls: seq<seq<Step>>)
    requires i < |logs| && Progress(logs, attempt, create, i, calls)
    requires !create(attempt, |calls|)
    ensures var k := ChunkSize(|logs|);
            var end := if i + k < |logs| then i + k else |logs|;
            var calls' := calls + [logs[i..end]];
            && calls' <= Chunks(logs)
            && (forall j :: 0 <= j < |calls'| - 1 ==> create(attempt, j))
            && !Succeeds(logs, attempt, create)
            && calls' != [] && !create(attempt, |calls'| - 1)
            && CreateError(i, end - 1, attempt) == CreateError(|Flatten(calls'[..|calls'| - 1])|, |Flatten(calls')| - 1, attempt)
  {
    var k := ChunkSize(|logs|);
    var end := if i + k < |logs| then i + k else |logs|;
    var calls' := calls + [logs[i..end]];
    assert ChunksFrom(logs, k, i) == [logs[i..end]] + ChunksFrom(logs, k, end);
    assert calls' + ChunksFrom(logs, k, end) == Chunks(logs);
    assert calls'[..|calls'| - 1] == calls;
    FlattenSnoc(calls, logs[i..end]);
    assert Chunks(logs)[|calls|] == logs[i..end];
  }

  /** An attempt that got past the last chunk wrote every chunk and succeeds. */
  lemma ProgressDone(logs: seq<Step>, attempt: nat, create: CreateOracle, i: nat, calls: seq<seq<Step>>)
    requires i >= |logs| && Progress(logs, attempt, create, i, calls)
    ensures calls == Chunks(logs) && Succeeds(logs, attempt, create)
    ensures forall j :: 0 <= j < |calls| ==> create(attempt, j)
  {
  }

  /** Attempt `attempt` failed after issuing the writes `calls`: the chunks
      from the first one up to and including the first that failed. */
  ghost predicate Failed(logs: seq<Step>, create: CreateOracle, attempt: nat, calls: seq<seq<Step>>)
  {
    && calls <= Chunks(logs) && WroteUpTo(create, attempt, calls)
    && !create(attempt, |calls| - 1) && !Succeeds(logs, attempt, create)
  }

  /** `flush`: run up to `MaxRetries` attempts, stopping at the first that
      succeeds, sleeping `a` seconds after failed attempt `a` unless it was
      the last. An empty batch returns at once. `delays` are the sleeps in
      seconds and `writes` the chunks written by each attempt. */
  method Flush(logs: seq<Step>, create: CreateOracle)
    returns (outcome: FlushOutcome, attempts: nat, delays: seq<nat>, writes: seq<seq<seq<Step>>>)
    ensures logs == [] <==> outcome == Skipped
    ensures logs == [] ==> attempts == 0 && delays == [] && writes == []
    // at most three attempts, a sleep between two attempts and none after the last
    ensures logs != [] ==> 1 <= attempts <= MaxRetries && |delays| == attempts - 1
    ensures |writes| == attempts
    // linear backoff: the sleep after attempt a is a seconds, so the sleeps strictly increase
    ensures forall d :: 0 <= d < |delays| ==> delays[d] == d + 1
    ensures forall d, e :: 0 <= d < e < |delays| ==> delays[d] < delays[e]
    // every attempt starts again from the first chunk, writes at least one, and every
    // chunk but its last was written
    // a failed attempt stopped at its first failing chunk
    ensures forall a :: 0 <= a < |writes| ==>
              && writes[a] <= Chunks(logs) && WroteUpTo(create, a + 1, writes[a])
              && (a < attempts - 1 || outcome.Abandoned? ==> !create(a + 1, |writes[a]| - 1))
    // retry stops right after the first successful attempt ...
    ensures forall a :: 1 <= a < attempts ==> !Succeeds(logs, a, create)
    ensures outcome.Persisted? ==>
              outcome.count == |logs| && Succeeds(logs, attempts, create) && writes[attempts - 1] == Chunks(logs)
    // ... and abandons the batch after the third failure
    ensures outcome.Abandoned? ==>
              attempts == MaxRetries && !Succeeds(logs, MaxRetries, create)
    // the error reported is the third attempt's: its failing chunk's first and last record
    ensures outcome.Abandoned? ==>
              |writes| == MaxRetries && writes[2] != [] &&
              outcome.last == CreateError(|Flatten(writes[2][..|writes[2]| - 1])|, |Flatten(writes[2])| - 1, MaxRetries)
    ensures logs != [] ==> (outcome.Persisted? <==> exists a :: 1 <= a <= MaxRetries && Succeeds(logs, a, create))
  {
    outcome, attempts, delays, writes := Skipped, 0, [], [];
    if |logs| == 0 {
      return;
    }
    var attempt := 1;
    while attempt <= MaxRetries
      invariant 1 <= attempt <= MaxRetries
      invariant attempts == attempt - 1 && |writes| == attempts
      invariant |delays| == attempts
      invariant forall d :: 0 <= d < |delays| ==> delays[d] == d + 1
      invariant forall a :: 0 <= a < |writes| ==> Failed(logs, create, a + 1, writes[a])
      decreases MaxRetries + 1 - attempt
    {
      var err, calls := FlushWithRetry(logs, attempt, create);
      if err.None? {
        ChunksNonEmpty(logs);
      }
      forall a | 1 <= a < attempt
        ensures !Succeeds(logs, a, create)
      {
        assert Failed(logs, create, a, writes[a - 1]);
      }
      attempts := attempt;
      if err.Some? {
        assert Failed(logs, create, attempt, calls);
      }
      writes := writes + [calls];
      if err.Some? {
        if attempt == MaxRetries {
          outcome := Abandoned(err.value);
          return;
        }
        delays := delays + [attempt];
        attempt := attempt + 1;
        continue;
      }
      outcome := Persisted(|logs|);
      return;
    }
    assert false;
  }
}
