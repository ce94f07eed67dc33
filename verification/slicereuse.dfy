/** How `startWorker` reuses the storage of `buf` after a flush. The worker
    builds `buf` in a backing array of capacity `batchSize * 2`; `flush`
    starts a goroutine that keeps the slice header (array and length) and
    writes it later, while the worker resets `buf = buf[:0]` and appends the
    next records into the same array. Here a slice is an array and a length,
    and Go's `append` writes in place while the length is below the
    capacity. */
module SliceReuse {
  import opened TraceRecord

  /** `append(buf, s)` on a slice with spare capacity: the record goes into
      the next cell of the same backing array. */
  method AppendInPlace(arr: array<Step>, len: nat, s: Step) returns (len': nat)
    requires len < arr.Length
    modifies arr
    ensures len' == len + 1
    ensures arr[..len'] == old(arr[..len]) + [s]
    ensures forall i :: 0 <= i < arr.Length && i != len ==> arr[i] == old(arr[i])
  {
    arr[len] := s;
    len' := len + 1;
  }

  /** The records of one batch arrive in an empty `buf` whose backing array
      has room for them all; the cells beyond the batch keep their values. */
  method FillBatch(arr: array<Step>, batch: seq<Step>) returns (len: nat)
    requires |batch| <= arr.Length
    modifies arr
    ensures len == |batch| && arr[..len] == batch
    ensures forall i :: len <= i < arr.Length ==> arr[i] == old(arr[i])
  {
    len := 0;
    while len < |batch|
      invariant len <= |batch|
      invariant arr[..len] == batch[..len]
      invariant forall i :: len <= i < arr.Length ==> arr[i] == old(arr[i])
    {
      len := AppendInPlace(arr, len, batch[len]);
    }
  }

  /** The worker as written: `batchSize` records fill `buf`, `flush` hands
      the slice to the writer goroutine, `buf = buf[:0]` keeps the array, and
      one more record is appended before the goroutine reads its slice. The
      writer then reads the new record in place of the batch's first one. */
  method AsWrittenReuse(batch: seq<Step>, next: Step) returns (handedOff: seq<Step>, writerReads: seq<Step>)
    requires |batch| >= 1
    ensures handedOff == batch
    ensures writerReads == [next] + batch[1..]
    ensures next != batch[0] ==> writerReads != handedOff
  {
    var batchSize := |batch|;
    var arr := new Step[batchSize * 2](_ => next);      // make([]Step, 0, batchSize*2)
    var len := FillBatch(arr, batch);                  // len(buf) >= batchSize now
    var logsArr, logsLen := arr, len;                  // flush(db, buf): the goroutine's slice
    handedOff := logsArr[..logsLen];
    len := 0;                                          // buf = buf[:0]
    len := AppendInPlace(arr, len, next);              // buf = append(buf, log)
    writerReads := logsArr[..logsLen];                 // the goroutine reads logs
    assert writerReads[0] == next;
    assert writerReads[1..] == batch[1..];
  }

  /** `append([]Step(nil), buf...)`: a copy of the slice in a new backing
      array. */
  method CopyOf(arr: array<Step>, len: nat) returns (c: array<Step>)
    requires len <= arr.Length
    ensures fresh(c) && c[..] == arr[..len]
  {
    c := new Step[len];
    for j := 0 to len
      invariant c[..j] == arr[..j]
    {
      c[j] := arr[j];
    }
  }

  /** The corrected worker: `flush` is handed a copy of `buf`, and the worker
      keeps reusing `buf`'s own backing array (`buf = buf[:0]`). The next
      append lands in that array, so the writer reads exactly the batch that
      was flushed, while `buf` holds just the new record. */
  method CopyOnFlush(batch: seq<Step>, next: Step) returns (handedOff: seq<Step>, writerReads: seq<Step>, bufAfter: seq<Step>)
    requires |batch| >= 1
    ensures handedOff == batch
    ensures writerReads == handedOff
    ensures bufAfter == [next]
  {
    var batchSize := |batch|;
    var arr := new Step[batchSize * 2](_ => next);      // make([]Step, 0, batchSize*2)
    var len := FillBatch(arr, batch);
    var logsArr := CopyOf(arr, len);                    // flush(db, append([]Step(nil), buf...))
    var logsLen := len;
    handedOff := logsArr[..logsLen];
    len := 0;                                          // buf = buf[:0]: the same array is reused
    len := AppendInPlace(arr, len, next);              // buf = append(buf, log)
    writerReads := logsArr[..logsLen];                 // the goroutine reads logs
    bufAfter := arr[..len];
  }
}
