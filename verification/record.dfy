/** The trace record (`Step`) and the sequence helpers the pipeline's
    conservation properties are stated with. */
module TraceRecord {

  /** One observation of a completed request; immutable once built. */
  datatype Step = Step(
    traceId: string,
    userId: string,
    path: string,
    httpMethod: string,
    statusCode: int,
    latencyMs: int,
    ip: string,
    userAgent: string,
    createdAt: int)

  datatype Option<+T> = None | Some(value: T)

  /** The records of a sequence of batches, batch after batch. */
  function Min(a: int, b: int): int
  {
    if a < b then a else b
  }

  function Flatten(batches: seq<seq<Step>>): seq<Step>
    decreases |batches|
  {
    if batches == [] then [] else Flatten(batches[..|batches| - 1]) + batches[|batches| - 1]
  }

  /** Every batch holds at least one record. */
  predicate AllNonEmpty(batches: seq<seq<Step>>)
  {
    forall i :: 0 <= i < |batches| ==> batches[i] != []
  }

  lemma {:induction false} FlattenAppend(a: seq<seq<Step>>, b: seq<seq<Step>>)
    ensures Flatten(a + b) == Flatten(a) + Flatten(b)
    decreases |b|
  {
    if b == [] {
      assert a + b == a;
    } else {
      var b' := b[..|b| - 1];
      assert (a + b)[..|a + b| - 1] == a + b';
      FlattenAppend(a, b');
    }
  }

  lemma FlattenSnoc(a: seq<seq<Step>>, c: seq<Step>)
    ensures Flatten(a + [c]) == Flatten(a) + c
  {
    assert (a + [c])[..|a|] == a;
  }

  lemma FlattenCons(c: seq<Step>, rest: seq<seq<Step>>)
    ensures Flatten([c] + rest) == c + Flatten(rest)
  {
    FlattenAppend([c], rest);
    assert [c][..0] == [];
  }
}
