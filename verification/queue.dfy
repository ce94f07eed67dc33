/** The ingestion queue: the buffered channel `buffer` of capacity
    `BufferSize`, written by the middleware with a non-blocking send and read
    by the single worker. */
module IngestionQueue {
  import opened TraceRecord

  /** What one receive on the channel observes. */
  datatype Received =
    | Value(step: Step)     // a buffered record, oldest first
    | ClosedAndDrained      // the channel is closed and empty (`ok == false`)
    | WouldBlock            // empty and open: the receive case is not ready

  class Channel {
    const capacity: nat
    var items: seq<Step>
    var closed: bool

    /** At most `capacity` records are ever buffered. */
    ghost predicate Valid()
      reads this
    {
      |items| <= capacity
    }

    /** `make(chan Step, cfg.BufferSize)`. */
    constructor (bufferSize: nat)
      ensures Valid()
      ensures capacity == bufferSize && items == [] && !closed
    {
      capacity := bufferSize;
      items := [];
      closed := false;
    }

    /** `select { case buffer <- step: default: }`: enqueue at the tail when
        there is room, otherwise drop the record; never waits. Sending on a
        closed channel panics in Go, so the caller must not. */
    method TrySend(s: Step) returns (sent: bool)
      requires Valid() && !closed
      modifies this
      ensures Valid() && !closed
      ensures sent <==> |old(items)| < capacity
      ensures items == if sent then old(items) + [s] else old(items)
    {
      sent := |items| < capacity;
      if sent {
        items := items + [s];
      }
    }

    /** `log, ok := <-buffer` as one ready case of the worker's select:
        buffered records come out first even after the channel is closed. */
    method Receive() returns (r: Received)
      requires Valid()
      modifies this
      ensures Valid() && closed == old(closed)
      ensures old(items) != [] ==> r == Value(old(items)[0]) && items == old(items)[1..]
      ensures old(items) == [] ==> items == [] && r == (if closed then ClosedAndDrained else WouldBlock)
    {
      if items != [] {
        r := Value(items[0]);
        items := items[1..];
      } else if closed {
        r := ClosedAndDrained;
      } else {
        r := WouldBlock;
      }
    }

    /** `close(buffer)`: no more producers. Closing twice panics in Go. */
    method Close()
      requires Valid() && !closed
      modifies this
      ensures Valid() && closed && items == old(items)
    {
      closed := true;
    }
  }
}
