/** The batch assembler: the worker goroutine `startWorker`, which receives
    records from the channel, collects them in `buf` and hands a batch to
    `flush` when it reaches `batchSize` records, when the ticker fires, or
    when the channel is closed. Flushing is modelled as handing the batch
    off: `handedOff` lists, in order, every batch passed to `flush`. */
module BatchAssembler {
  import opened TraceRecord
  import opened IngestionQueue

  /** What the worker's `select` observes in one iteration. */
  datatype Event = Record(step: Step) | Tick | Closed

  /** The worker's state: the batch in progress, the batches already handed
      to `flush`, and whether the loop has returned. */
  datatype Assembler = Assembler(buf: seq<Step>, handedOff: seq<seq<Step>>, stopped: bool)

  const Initial := Assembler([], [], false)

  /** `len(buf) >= batchSize` first holds once `buf` has this many records. */
  function Threshold(batchSize: nat): nat
  {
    if batchSize == 0 then 1 else batchSize
  }

  /** The invariant the worker keeps: the batch in progress is below the
      threshold, no empty batch is ever handed off, and nothing is left in
      `buf` once the loop has returned. */
  ghost predicate Inv(a: Assembler, batchSize: nat)
  {
    |a.buf| < Threshold(batchSize) && AllNonEmpty(a.handedOff) && (a.stopped ==> a.buf == [])
  }

  predicate NoClose(evs: seq<Event>)
  {
    forall i :: 0 <= i < |evs| ==> !evs[i].Closed?
  }

  /** The record an event carries, if any. */
  function Payload(ev: Event): seq<Step>
  {
    if ev.Record? then [ev.step] else []
  }

  /** The records the worker receives from `evs`: those before the first Closed. */
  function Delivered(evs: seq<Event>): seq<Step>
    decreases |evs|
  {
    if evs == [] then []
    else match evs[0]
      case Record(s) => [s] + Delivered(evs[1..])
      case Tick => Delivered(evs[1..])
      case Closed => []
  }

  /** One iteration of the worker loop: the select case for `ev` fired. */
  function OnEvent(a: Assembler, ev: Event, batchSize: nat): Assembler
  {
    if a.stopped then a
    else match ev
      case Record(s) =>
        var buf := a.buf + [s];
        if |buf| >= batchSize then Assembler([], a.handedOff + [buf], false) else a.(buf := buf)
      case Tick =>
        if |a.buf| > 0 then Assembler([], a.handedOff + [a.buf], false) else a
      case Closed =>
        if |a.buf| > 0 then Assembler([], a.handedOff + [a.buf], true) else a.(stopped := true)
  }

  /** What one iteration of the worker loop guarantees. */
  lemma OnEventSpec(a: Assembler, ev: Event, batchSize: nat, r: Assembler)
    requires r == OnEvent(a, ev, batchSize)
    // once the loop has returned nothing happens any more
    ensures a.stopped ==> r == a
    // no record is lost, duplicated or reordered
    ensures !a.stopped ==> Flatten(r.handedOff) + r.buf == Flatten(a.handedOff) + a.buf + Payload(ev)
    // at most one batch is handed off, earlier ones stay as they were, and the new batch starts empty
    ensures r.handedOff == a.handedOff
         || (|r.handedOff| == |a.handedOff| + 1 && r.handedOff[..|a.handedOff|] == a.handedOff && r.buf == [])
    ensures Inv(a, batchSize) ==> Inv(r, batchSize)
    // a record flushes exactly when the batch reaches batchSize
    ensures ev.Record? && !a.stopped ==> (r.handedOff != a.handedOff <==> |a.buf| + 1 >= batchSize)
    // a tick hands off a non-empty batch and makes no work from an empty one
    ensures ev.Tick? && !a.stopped ==> r.buf == [] && (r == a <==> a.buf == [])
    // close drains the batch and ends the loop
    ensures ev.Closed? && !a.stopped ==> r.stopped && r.buf == []
    ensures !ev.Closed? ==> r.stopped == a.stopped
  {
  }

  /** The worker loop over a sequence of events. */
  function Run(a: Assembler, evs: seq<Event>, batchSize: nat): Assembler
    decreases |evs|
  {
    if evs == [] then a else Run(OnEvent(a, evs[0], batchSize), evs[1..], batchSize)
  }

  /** A sequence of record arrivals, in order. */
  function Records(recs: seq<Step>): (evs: seq<Event>)
    ensures |evs| == |recs|
    ensures forall i :: 0 <= i < |evs| ==> evs[i] == Record(recs[i])
  {
    if recs == [] then [] else [Record(recs[0])] + Records(recs[1..])
  }

  lemma {:induction false} RunStopped(a: Assembler, evs: seq<Event>, batchSize: nat)
    requires a.stopped
    ensures Run(a, evs, batchSize) == a
    decreases |evs|
  {
    if evs != [] {
      RunStopped(OnEvent(a, evs[0], batchSize), evs[1..], batchSize);
    }
  }

  lemma {:induction false} RunSnoc(a: Assembler, evs: seq<Event>, ev: Event, batchSize: nat)
    ensures Run(a, evs + [ev], batchSize) == OnEvent(Run(a, evs, batchSize), ev, batchSize)
    decreases |evs|
  {
    if evs == [] {
      assert evs + [ev] == [ev];
    } else {
      assert (evs + [ev])[1..] == evs[1..] + [ev];
      RunSnoc(OnEvent(a, evs[0], batchSize), evs[1..], ev, batchSize);
    }
  }

  lemma {:induction false} DeliveredSnoc(evs: seq<Event>, ev: Event)
    requires NoClose(evs)
    ensures Delivered(evs + [ev]) == Delivered(evs) + Payload(ev)
    decreases |evs|
  {
    if evs == [] {
      assert evs + [ev] == [ev];
    } else {
      assert (evs + [ev])[1..] == evs[1..] + [ev];
      DeliveredSnoc(evs[1..], ev);
    }
  }

  /** Conservation and order: whatever the events, the handed-off batches
      followed by the batch in progress are exactly the records received,
      in the order received. */
  lemma {:induction false} RunConservation(a: Assembler, evs: seq<Event>, batchSize: nat)
    requires !a.stopped
    ensures Flatten(Run(a, evs, batchSize).handedOff) + Run(a, evs, batchSize).buf
         == Flatten(a.handedOff) + a.buf + Delivered(evs)
    decreases |evs|
  {
    if evs != [] {
      var a' := OnEvent(a, evs[0], batchSize);
      OnEventSpec(a, evs[0], batchSize, a');
      if evs[0].Closed? {
        RunStopped(a', evs[1..], batchSize);
      } else {
        RunConservation(a', evs[1..], batchSize);
      }
    }
  }

  /** The invariant holds after every event. */
  lemma {:induction false} RunInv(a: Assembler, evs: seq<Event>, batchSize: nat)
    requires Inv(a, batchSize)
    ensures Inv(Run(a, evs, batchSize), batchSize)
    decreases |evs|
  {
    if evs != [] {
      OnEventSpec(a, evs[0], batchSize, OnEvent(a, evs[0], batchSize));
      RunInv(OnEvent(a, evs[0], batchSize), evs[1..], batchSize);
    }
  }

  /** A batch, once handed off, is never changed: later events only add batches. */
  lemma {:induction false} RunKeepsHandedOff(a: Assembler, evs: seq<Event>, batchSize: nat)
    ensures a.handedOff <= Run(a, evs, batchSize).handedOff
    decreases |evs|
  {
    if evs != [] {
      OnEventSpec(a, evs[0], batchSize, OnEvent(a, evs[0], batchSize));
      RunKeepsHandedOff(OnEvent(a, evs[0], batchSize), evs[1..], batchSize);
    }
  }

  /** Records arriving while the batch stays below `batchSize` are only
      appended to it. */
  lemma {:induction false} RunBelowThreshold(a: Assembler, recs: seq<Step>, batchSize: nat)
    requires !a.stopped && |a.buf| + |recs| < batchSize
    ensures Run(a, Records(recs), batchSize) == a.(buf := a.buf + recs)
    decreases |recs|
  {
    if recs != [] {
      assert Records(recs)[1..] == Records(recs[1..]);
      RunBelowThreshold(a.(buf := a.buf + [recs[0]]), recs[1..], batchSize);
      assert a.buf + [recs[0]] + recs[1..] == a.buf + recs;
    }
  }

  /** The size trigger: `batchSize` records arriving with no tick in between
      are handed off as one batch, and the new batch is empty. */
  lemma SizeTriggeredFlush(recs: seq<Step>, batchSize: nat)
    requires batchSize >= 1 && |recs| == batchSize
    ensures Run(Initial, Records(recs), batchSize) == Assembler([], [recs], false)
  {
    var n := |recs| - 1;
    assert Records(recs) == Records(recs[..n]) + [Record(recs[n])];
    RunSnoc(Initial, Records(recs[..n]), Record(recs[n]), batchSize);
    RunBelowThreshold(Initial, recs[..n], batchSize);
    assert Run(Initial, Records(recs[..n]), batchSize) == Assembler(recs[..n], [], false);
    assert recs[..n] + [recs[n]] == recs;
  }

  /** The time trigger: a tick after fewer than `batchSize` records hands off
      exactly those records, once; with no records it hands off nothing. */
  lemma TickFlushesPartialBatch(recs: seq<Step>, batchSize: nat)
    requires |recs| < batchSize
    ensures Run(Initial, Records(recs) + [Tick], batchSize)
         == Assembler([], if recs == [] then [] else [recs], false)
  {
    RunSnoc(Initial, Records(recs), Tick, batchSize);
    RunBelowThreshold(Initial, recs, batchSize);
    assert Run(Initial, Records(recs), batchSize) == Assembler(recs, [], false);
  }

  /** Shutdown drains: after fewer than `batchSize` records, closing the
      channel hands off those records as one final batch and stops. */
  lemma CloseDrainsBatch(recs: seq<Step>, batchSize: nat)
    requires |recs| < batchSize
    ensures Run(Initial, Records(recs) + [Closed], batchSize)
         == Assembler([], if recs == [] then [] else [recs], true)
  {
    RunSnoc(Initial, Records(recs), Closed, batchSize);
    RunBelowThreshold(Initial, recs, batchSize);
    assert Run(Initial, Records(recs), batchSize) == Assembler(recs, [], false);
  }

  /** What happens next while the worker runs: a case of its `select` fires
      (the channel or the ticker), or a request handler makes its
      non-blocking send of a record on the channel. */
  datatype Wake = ChannelReady | TickerFired | Sent(step: Step)

  function ChannelWakes(schedule: seq<Wake>): nat
    decreases |schedule|
  {
    if schedule == [] then 0
    else ChannelWakes(schedule[..|schedule| - 1]) + (if schedule[|schedule| - 1] == ChannelReady then 1 else 0)
  }

  /** The channel after a handler's non-blocking send of `s`: the record is
      enqueued when there is room and dropped otherwise. A send on a closed
      channel would panic; here it leaves the channel alone. */
  function AfterSend(items: seq<Step>, s: Step, closed: bool, capacity: nat): seq<Step>
  {
    if !closed && |items| < capacity then items + [s] else items
  }

  /** What the worker's select observes when the wake-ups of `schedule` happen
      in turn on a channel of the given capacity holding `items` (closed or
      not): a tick for every ticker wake-up; for a channel wake-up the head
      record, the closed report once the channel is closed and drained (after
      which the loop returns), or nothing while it is empty and open; a send
      observes nothing but changes what later channel wake-ups find. */
  function Observe(schedule: seq<Wake>, items: seq<Step>, closed: bool, capacity: nat): seq<Event>
    decreases |schedule|
  {
    if schedule == [] then []
    else match schedule[0]
      case TickerFired => [Tick] + Observe(schedule[1..], items, closed, capacity)
      case Sent(s) => Observe(schedule[1..], AfterSend(items, s, closed, capacity), closed, capacity)
      case ChannelReady =>
        if items != [] then [Record(items[0])] + Observe(schedule[1..], items[1..], closed, capacity)
        else if closed then [Closed]
        else Observe(schedule[1..], items, closed, capacity)
  }

  /** The records the channel accepts from the sends of `schedule`, up to the
      point where the loop returns. */
  function Accepted(schedule: seq<Wake>, items: seq<Step>, closed: bool, capacity: nat): seq<Step>
    decreases |schedule|
  {
    if schedule == [] then []
    else match schedule[0]
      case TickerFired => Accepted(schedule[1..], items, closed, capacity)
      case Sent(s) =>
        if !closed && |items| < capacity then [s] + Accepted(schedule[1..], items + [s], closed, capacity)
        else Accepted(schedule[1..], items, closed, capacity)
      case ChannelReady =>
        if items != [] then Accepted(schedule[1..], items[1..], closed, capacity)
        else if closed then []
        else Accepted(schedule[1..], items, closed, capacity)
  }

  /** A closed channel accepts no record. */
  lemma {:induction false} AcceptedClosed(schedule: seq<Wake>, items: seq<Step>, capacity: nat)
    ensures Accepted(schedule, items, true, capacity) == []
    decreases |schedule|
  {
    if schedule != [] {
      var items' := if schedule[0] == ChannelReady && items != [] then items[1..] else items;
      if !(schedule[0] == ChannelReady && items == []) {
        AcceptedClosed(schedule[1..], items', capacity);
      }
    }
  }

  /** What the channel accepts from wake-up `w` on a channel holding `items`. */
  function AcceptedBy(w: Wake, items: seq<Step>, closed: bool, capacity: nat): seq<Step>
  {
    if w.Sent? && !closed && |items| < capacity then [w.step] else []
  }

  /** Where the worker loop stands after the first `i` wake-ups of
      `schedule`, started on a channel holding `items0`: the events observed
      so far, followed by what the rest of the schedule brings from the
      channel's current `items`, are the whole run's; once the loop has
      returned, they are the whole run's. */
  ghost predicate ObservedSoFar(schedule: seq<Wake>, i: nat, items0: seq<Step>, items: seq<Step>, closed: bool,
                                capacity: nat, events: seq<Event>, stopped: bool)
  {
    && i <= |schedule|
    && (stopped ==> events == Observe(schedule, items0, closed, capacity))
    && (!stopped ==> events + Observe(schedule[i..], items, closed, capacity) == Observe(schedule, items0, closed, capacity))
  }

  /** The same for the records the channel has accepted. */
  ghost predicate AcceptedSoFar(schedule: seq<Wake>, i: nat, items0: seq<Step>, items: seq<Step>, closed: bool,
                                capacity: nat, accepted: seq<Step>, stopped: bool)
  {
    && i <= |schedule|
    && (stopped ==> accepted == Accepted(schedule, items0, closed, capacity))
    && (!stopped ==> accepted + Accepted(schedule[i..], items, closed, capacity) == Accepted(schedule, items0, closed, capacity))
  }

  /** One wake-up of the schedule, from position `i`: what the select
      observed on a channel holding `items` (and left `items'` behind) is
      the next part of the run. */
  lemma ObservedStep(schedule: seq<Wake>, i: nat, items0: seq<Step>, items: seq<Step>, items': seq<Step>,
                     closed: bool, capacity: nat, observed: Option<Event>, events: seq<Event>)
    requires i < |schedule| && ObservedSoFar(schedule, i, items0, items, closed, capacity, events, false)
    requires schedule[i] == TickerFired ==> observed == Some(Tick) && items' == items
    requires schedule[i].Sent? ==> observed == None && items' == AfterSend(items, schedule[i].step, closed, capacity)
    requires schedule[i] == ChannelReady && items != [] ==> observed == Some(Record(items[0])) && items' == items[1..]
    requires schedule[i] == ChannelReady && items == [] ==> items' == [] && observed == (if closed then Some(Closed) else None)
    ensures ObservedSoFar(schedule, i + 1, items0, items', closed, capacity,
                          if observed.Some? then events + [observed.value] else events, observed == Some(Closed))
  {
    assert schedule[i..][1..] == schedule[i + 1..];
    if observed.Some? && !observed.value.Closed? {
      assert Observe(schedule[i..], items, closed, capacity) == [observed.value] + Observe(schedule[i + 1..], items', closed, capacity);
      assert events + [observed.value] + Observe(schedule[i + 1..], items', closed, capacity)
          == events + Observe(schedule[i..], items, closed, capacity);
    }
  }

  /** The same step for the records the channel accepts. */
  lemma AcceptedStep(schedule: seq<Wake>, i: nat, items0: seq<Step>, items: seq<Step>, items': seq<Step>,
                     closed: bool, capacity: nat, stops: bool, accepted: seq<Step>)
    requires i < |schedule| && AcceptedSoFar(schedule, i, items0, items, closed, capacity, accepted, false)
    requires schedule[i] == TickerFired ==> items' == items
    requires schedule[i].Sent? ==> items' == AfterSend(items, schedule[i].step, closed, capacity)
    requires schedule[i] == ChannelReady && items != [] ==> items' == items[1..]
    requires schedule[i] == ChannelReady && items == [] ==> items' == []
    requires stops <==> schedule[i] == ChannelReady && items == [] && closed
    ensures AcceptedSoFar(schedule, i + 1, items0, items', closed, capacity,
                          accepted + AcceptedBy(schedule[i], items, closed, capacity), stops)
  {
    assert schedule[i..][1..] == schedule[i + 1..];
    if !stops {
      assert Accepted(schedule[i..], items, closed, capacity)
          == AcceptedBy(schedule[i], items, closed, capacity) + Accepted(schedule[i + 1..], items', closed, capacity);
      assert accepted + AcceptedBy(schedule[i], items, closed, capacity) + Accepted(schedule[i + 1..], items', closed, capacity)
          == accepted + Accepted(schedule[i..], items, closed, capacity);
    } else {
      assert accepted + AcceptedBy(schedule[i], items, closed, capacity) == accepted;
    }
  }

  /** The channel's records plus what it accepts at wake-up `w` are what the
      select takes from it plus what it holds afterwards. */
  lemma ChannelStep(w: Wake, items: seq<Step>, items': seq<Step>, closed: bool, capacity: nat,
                    observed: Option<Event>, consumed: seq<Step>, base: seq<Step>, accepted: seq<Step>)
    requires base + accepted == consumed + items
    requires w == TickerFired ==> observed == Some(Tick) && items' == items
    requires w.Sent? ==> observed == None && items' == AfterSend(items, w.step, closed, capacity)
    requires w == ChannelReady && items != [] ==> observed == Some(Record(items[0])) && items' == items[1..]
    requires w == ChannelReady && items == [] ==> items' == [] && observed == (if closed then Some(Closed) else None)
    ensures base + (accepted + AcceptedBy(w, items, closed, capacity))
         == (if observed.Some? && observed.value.Record? then consumed + [observed.value.step] else consumed) + items'
  {
    match w
    case ChannelReady =>
      if items != [] {
        assert items == [items[0]] + items[1..];
        assert consumed + items == consumed + [items[0]] + items[1..];
      }
      assert AcceptedBy(w, items, closed, capacity) == [];
    case TickerFired =>
      assert AcceptedBy(w, items, closed, capacity) == [];
    case Sent(s) =>
      if !closed && |items| < capacity {
        assert base + (accepted + [s]) == (consumed + items) + [s];
      } else {
        assert AcceptedBy(w, items, closed, capacity) == [];
      }
  }

  lemma {:induction false} ChannelWakesCons(w: Wake, schedule: seq<Wake>)
    ensures ChannelWakes([w] + schedule) == (if w == ChannelReady then 1 else 0) + ChannelWakes(schedule)
    decreases |schedule|
  {
    if schedule != [] {
      var n := |schedule| - 1;
      assert ([w] + schedule)[..n + 1] == [w] + schedule[..n];
      ChannelWakesCons(w, schedule[..n]);
    }
  }

  /** The worker receives at most one record per channel wake-up; when no
      handler sends during the run, those are the oldest records on the
      channel, one per channel wake-up, as long as there are any. */
  lemma {:induction false} ObserveDelivered(schedule: seq<Wake>, items: seq<Step>, closed: bool, capacity: nat)
    ensures |Delivered(Observe(schedule, items, closed, capacity))| <= ChannelWakes(schedule)
    ensures (forall w | w in schedule :: !w.Sent?) ==>
              Delivered(Observe(schedule, items, closed, capacity)) == items[..Min(ChannelWakes(schedule), |items|)]
    decreases |schedule|
  {
    if schedule != [] {
      var rest := schedule[1..];
      assert schedule == [schedule[0]] + rest;
      ChannelWakesCons(schedule[0], rest);
      var evs := Observe(schedule, items, closed, capacity);
      match schedule[0]
      case TickerFired =>
        assert evs[1..] == Observe(rest, items, closed, capacity);
        ObserveDelivered(rest, items, closed, capacity);
      case Sent(x) =>
        ObserveDelivered(rest, AfterSend(items, x, closed, capacity), closed, capacity);
      case ChannelReady =>
        if items != [] {
          assert evs[1..] == Observe(rest, items[1..], closed, capacity);
          ObserveDelivered(rest, items[1..], closed, capacity);
          assert [items[0]] + items[1..][..Min(ChannelWakes(rest), |items| - 1)]
              == items[..Min(ChannelWakes(schedule), |items|)];
        } else if !closed {
          ObserveDelivered(rest, items, closed, capacity);
        }
    }
  }

  /** On a closed channel, a channel wake-up beyond the buffered records
      observes the closed report. */
  lemma {:induction false} ObserveCloses(schedule: seq<Wake>, items: seq<Step>, closed: bool, capacity: nat)
    requires closed && ChannelWakes(schedule) > |items|
    ensures !NoClose(Observe(schedule, items, closed, capacity))
    decreases |schedule|
  {
    var rest := schedule[1..];
    assert schedule == [schedule[0]] + rest;
    ChannelWakesCons(schedule[0], rest);
    var evs := Observe(schedule, items, closed, capacity);
    if schedule[0] == ChannelReady && items == [] {
      assert evs[0].Closed?;
    } else {
      var items' := if schedule[0] == ChannelReady then items[1..] else items;
      var head := if schedule[0].Sent? then 0 else 1;
      assert evs[head..] == Observe(rest, items', closed, capacity);
      ObserveCloses(rest, items', closed, capacity);
      var k :| 0 <= k < |Observe(rest, items', closed, capacity)| && Observe(rest, items', closed, capacity)[k].Closed?;
      assert evs[k + head] == Observe(rest, items', closed, capacity)[k];
    }
  }

  /** The body of the select case that fired: append the record and flush
      at the threshold, flush a non-empty batch on a tick, or flush what is
      left and return when the channel is closed. A flush hands `buf` off
      and starts a new, empty batch. This is `OnEvent` written as statements,
      so that the loop body of `StartWorker` is imperative. */
  method Handle(buf: seq<Step>, handedOff: seq<seq<Step>>, ev: Event, batchSize: nat)
    returns (buf': seq<Step>, handedOff': seq<seq<Step>>, stopped': bool)
    ensures Assembler(buf', handedOff', stopped') == OnEvent(Assembler(buf, handedOff, false), ev, batchSize)
    ensures stopped' <==> ev == Closed
  {
    buf', handedOff', stopped' := buf, handedOff, false;
    match ev {
      case Record(s) =>
        buf' := buf' + [s];
        if |buf'| >= batchSize {
          handedOff' := handedOff' + [buf'];
          buf' := [];
        }
      case Tick =>
        if |buf'| > 0 {
          handedOff' := handedOff' + [buf'];
          buf' := [];
        }
      case Closed =>
        if |buf'| > 0 {
          handedOff' := handedOff' + [buf'];
          buf' := [];
        }
        stopped' := true;
    }
  }

  /** One wake-up `w` while the worker runs. The ticker case of the select
      yields a tick; the channel case receives the head record, or the closed
      report on a closed and drained channel, or keeps waiting (`None`) on an
      empty open one; a handler's send enqueues or drops its record, and the
      select observes nothing. */
  method Select(q: Channel, w: Wake) returns (observed: Option<Event>)
    requires q.Valid()
    modifies q
    ensures q.Valid() && q.closed == old(q.closed)
    ensures w == TickerFired ==> observed == Some(Tick) && q.items == old(q.items)
    ensures w.Sent? ==> observed == None && q.items == AfterSend(old(q.items), w.step, q.closed, q.capacity)
    ensures w == ChannelReady && old(q.items) != [] ==>
              observed == Some(Record(old(q.items)[0])) && q.items == old(q.items)[1..]
    ensures w == ChannelReady && old(q.items) == [] ==>
              q.items == [] && observed == (if q.closed then Some(Closed) else None)
  {
    match w {
      case ChannelReady =>
        var r := q.Receive();
        observed := match r
          case Value(s) => Some(Record(s))
          case ClosedAndDrained => Some(Closed)
          case WouldBlock => None;
      case TickerFired =>
        observed := Some(Tick);
      case Sent(s) =>
        if !q.closed {
          var _ := q.TrySend(s);
        }
        observed := None;
    }
  }

  /** Everything the worker loop keeps after the first `i` wake-ups of
      `schedule`, started on a channel holding `items0` and now holding
      `items`: the channel conserves records, the state is the run of the
      events observed so far, and those events and the accepted records are
      the start of the whole run. */
  ghost predicate WorkerInv(schedule: seq<Wake>, i: nat, items0: seq<Step>, items: seq<Step>, closed: bool,
                            capacity: nat, batchSize: nat, buf: seq<Step>, handedOff: seq<seq<Step>>, stopped: bool,
                            consumed: seq<Step>, accepted: seq<Step>, events: seq<Event>)
  {
    && items0 + accepted == consumed + items
    && Run(Initial, events, batchSize) == Assembler(buf, handedOff, stopped)
    && Delivered(events) == consumed
    && (!stopped ==> NoClose(events))
    && (stopped ==> closed && items == [])
    && ObservedSoFar(schedule, i, items0, items, closed, capacity, events, stopped)
    && AcceptedSoFar(schedule, i, items0, items, closed, capacity, accepted, stopped)
  }

  /** One iteration of the worker loop keeps `WorkerInv`: the select saw
      `observed` at wake-up `i` (leaving `items'` on the channel), and the
      case body turned the state into `buf'`, `handedOff'`, `stopped'`. */
  lemma WorkerStep(schedule: seq<Wake>, i: nat, items0: seq<Step>, items: seq<Step>, items': seq<Step>, closed: bool,
                   capacity: nat, batchSize: nat, observed: Option<Event>,
                   buf: seq<Step>, handedOff: seq<seq<Step>>, consumed: seq<Step>, accepted: seq<Step>, events: seq<Event>,
                   buf': seq<Step>, handedOff': seq<seq<Step>>, stopped': bool)
    requires i < |schedule|
    requires WorkerInv(schedule, i, items0, items, closed, capacity, batchSize, buf, handedOff, false, consumed, accepted, events)
    requires schedule[i] == TickerFired ==> observed == Some(Tick) && items' == items
    requires schedule[i].Sent? ==> observed == None && items' == AfterSend(items, schedule[i].step, closed, capacity)
    requires schedule[i] == ChannelReady && items != [] ==> observed == Some(Record(items[0])) && items' == items[1..]
    requires schedule[i] == ChannelReady && items == [] ==> items' == [] && observed == (if closed then Some(Closed) else None)
    requires observed.Some? ==>
               Assembler(buf', handedOff', stopped') == OnEvent(Assembler(buf, handedOff, false), observed.value, batchSize)
               && (stopped' <==> observed.value == Closed)
    requires observed.None? ==> buf' == buf && handedOff' == handedOff && !stopped'
    ensures WorkerInv(schedule, i + 1, items0, items', closed, capacity, batchSize, buf', handedOff', stopped',
                      if observed.Some? && observed.value.Record? then consumed + [observed.value.step] else consumed,
                      accepted + AcceptedBy(schedule[i], items, closed, capacity),
                      if observed.Some? then events + [observed.value] else events)
  {
    ObservedStep(schedule, i, items0, items, items', closed, capacity, observed, events);
    AcceptedStep(schedule, i, items0, items, items', closed, capacity, observed == Some(Closed), accepted);
    ChannelStep(schedule[i], items, items', closed, capacity, observed, consumed, items0, accepted);
    if observed.Some? {
      RunSnoc(Initial, events, observed.value, batchSize);
      DeliveredSnoc(events, observed.value);
    }
  }

  /** When the worker loop ends, because the schedule is used up or the
      loop has returned, `WorkerInv` gives the whole outcome of the run. */
  lemma WorkerDone(schedule: seq<Wake>, i: nat, items0: seq<Step>, items: seq<Step>, closed: bool,
                   capacity: nat, batchSize: nat, buf: seq<Step>, handedOff: seq<seq<Step>>, stopped: bool,
                   consumed: seq<Step>, accepted: seq<Step>, events: seq<Event>)
    requires WorkerInv(schedule, i, items0, items, closed, capacity, batchSize, buf, handedOff, stopped, consumed, accepted, events)
    requires i == |schedule| || stopped
    ensures items0 + Accepted(schedule, items0, closed, capacity) == consumed + items
    ensures Flatten(handedOff) + buf == consumed
    ensures AllNonEmpty(handedOff) && |buf| < Threshold(batchSize)
    ensures events == Observe(schedule, items0, closed, capacity)
    ensures |consumed| <= ChannelWakes(schedule)
    ensures (forall w | w in schedule :: !w.Sent?) ==> consumed == items0[..Min(ChannelWakes(schedule), |items0|)]
    ensures stopped ==> closed && items == [] && buf == [] && Flatten(handedOff) == items0
    ensures closed && ChannelWakes(schedule) > |items0| ==> stopped
  {
    if !stopped {
      assert schedule[i..] == [];
      assert events + [] == events;
      assert accepted + [] == accepted;
    }
    if closed {
      AcceptedClosed(schedule, items0, capacity);
      assert items0 + Accepted(schedule, items0, closed, capacity) == items0;
      if ChannelWakes(schedule) > |items0| {
        ObserveCloses(schedule, items0, closed, capacity);
      }
    }
    RunConservation(Initial, events, batchSize);
    RunInv(Initial, events, batchSize);
    ObserveDelivered(schedule, items0, closed, capacity);
  }

  /** The worker loop `startWorker`, run while the wake-ups of `schedule`
      happen in turn (or until the channel reports closed): cases of the
      select fire, and request handlers send records on the channel in
      between. A wake-up of the channel case while it is empty and open lets
      the select keep waiting. `events` is what the select observed. */
  method StartWorker(q: Channel, batchSize: nat, schedule: seq<Wake>)
    returns (buf: seq<Step>, handedOff: seq<seq<Step>>, stopped: bool, ghost consumed: seq<Step>, ghost events: seq<Event>)
    requires q.Valid()
    modifies q
    ensures q.Valid() && q.closed == old(q.closed)
    // the worker takes records from the head of the queue, and the handlers' accepted sends join at its tail ...
    ensures old(q.items) + Accepted(schedule, old(q.items), old(q.closed), q.capacity) == consumed + q.items
    // ... and every record taken is in exactly one handed-off batch or still in buf, in order
    ensures Flatten(handedOff) + buf == consumed
    ensures AllNonEmpty(handedOff) && |buf| < Threshold(batchSize)
    ensures Run(Initial, events, batchSize) == Assembler(buf, handedOff, stopped) && Delivered(events) == consumed
    // the select observes exactly what the schedule and the channel's contents determine
    ensures events == Observe(schedule, old(q.items), old(q.closed), q.capacity)
    ensures |consumed| <= ChannelWakes(schedule)
    ensures (forall w | w in schedule :: !w.Sent?) ==>
              consumed == old(q.items)[..Min(ChannelWakes(schedule), |old(q.items)|)]
    // the loop returns only on a closed, drained channel, after handing off everything
    ensures stopped ==> old(q.closed) && q.items == [] && buf == [] && Flatten(handedOff) == old(q.items)
    // a closed channel is drained once the channel case has fired often enough
    ensures old(q.closed) && ChannelWakes(schedule) > |old(q.items)| ==> stopped
  {
    buf, handedOff, stopped := [], [], false;
    consumed, events := [], [];
    ghost var accepted: seq<Step> := [];
    var i := 0;
    while i < |schedule| && !stopped
      invariant q.Valid() && q.closed == old(q.closed)
      invariant WorkerInv(schedule, i, old(q.items), q.items, q.closed, q.capacity, batchSize,
                          buf, handedOff, stopped, consumed, accepted, events)
      decreases |schedule| - i
    {
      // which wake-up happens, what the select observes, and the case body that runs
      ghost var before := q.items;
      var observed := Select(q, schedule[i]);
      var buf', handedOff', stopped' := buf, handedOff, false;
      if observed.Some? {
        buf', handedOff', stopped' := Handle(buf, handedOff, observed.value, batchSize);
      }
      WorkerStep(schedule, i, old(q.items), before, q.items, q.closed, q.capacity, batchSize, observed,
                 buf, handedOff, consumed, accepted, events, buf', handedOff', stopped');
      consumed := if observed.Some? && observed.value.Record? then consumed + [observed.value.step] else consumed;
      accepted := accepted + AcceptedBy(schedule[i], before, q.closed, q.capacity);
      events := if observed.Some? then events + [observed.value] else events;
      buf, handedOff, stopped := buf', handedOff', stopped';
      i := i + 1;
    }
    WorkerDone(schedule, i, old(q.items), q.items, q.closed, q.capacity, batchSize,
               buf, handedOff, stopped, consumed, accepted, events);
  }
}
