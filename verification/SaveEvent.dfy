/** `SkialithStore` as the program has it: construction, `save_event`, and the writer swap in `with_dead_letter`. */
module SaveEvent {
  import opened AgentEvents
  import opened WriterMachine
  import opened EventStore
  import BatchWriter
  import RateLimiter
  import LimiterMachine

  /** What the community build allows, and the default configuration. */
  const MAX_BATCH_SIZE: nat := 64
  const MIN_FLUSH_INTERVAL_MS: nat := 100
  const DEFAULT_BATCH_SIZE: nat := 256
  const DEFAULT_LINGER_MS: nat := 250
  const DEFAULT_CAPACITY: nat := 10_000

  datatype PublishOutcome = Acked | Unacked | Failed

  /** `Blocked` is a call still waiting for room in the channel. */
  datatype SaveResult = Saved | SerializeError | PublishError | QueueClosed | Blocked

  /** The steps of the write path that one call makes. */
  function CallSteps(e: PendingEvent, serializes: bool, publish: PublishOutcome, inflight: nat): seq<Action> {
    if !serializes || publish.Failed? then []
    else if publish.Unacked? then [PublishUnacked(e)]
    else [Publish(e), Enqueue(inflight)]
  }

  /** An acknowledged publish followed by its send, as one step. */
  lemma PublishThenEnqueue(s: Store, e: PendingEvent)
    requires s.writers != []
    ensures var last := |s.writers| - 1;
            var published := s.(wal := s.wal + [e]);
            Run(s, [Publish(e), Enqueue(|s.inflight|)])
            == (if HasRoom(s.writers[last]) then
                  published.(writers := s.writers[last := Send(s.writers[last], e)])
                else if !Receiving(s.writers[last]) then published.(refused := s.refused + [e])
                else published.(inflight := s.inflight + [e]))
  {
    var k := |s.inflight|;
    var s1 := Step(s, Publish(e));
    var s2 := Step(s1, Enqueue(k));
    assert s1.inflight[k] == e && Without(s1.inflight, k) == s.inflight;
    assert [Publish(e), Enqueue(k)][1..] == [Enqueue(k)] && [Enqueue(k)][1..] == [];
    assert Run(s, [Publish(e), Enqueue(k)]) == Run(s1, [Enqueue(k)]) == Run(s2, []);
  }

  lemma CallResult(s: Store, e: PendingEvent, serializes: bool, publish: PublishOutcome)
    requires s.writers != []
    ensures Run(s, CallSteps(e, serializes, publish, |s.inflight|))
            == (if !serializes || publish.Failed? then s
                else if publish.Unacked? then s.(wal := s.wal + [e], refused := s.refused + [e])
                else Run(s, [Publish(e), Enqueue(|s.inflight|)]))
  {
    assert [PublishUnacked(e)][1..] == [];
  }

  /**
   No second has let more than max(1, limit) events through to the stream, and what the window's own second has
   let through is within its counter.
   */
  ghost predicate WithinPace(limit: nat, published: seq<nat>, start: nat, count: nat) {
    limit < LimiterMachine.U32_MAX ==>
      && count <= LimiterMachine.Cap(limit)
      && (forall i :: 0 <= i < |published| ==> published[i] <= start)
      && multiset(published)[start] <= count
      && forall t :: multiset(published)[t] <= LimiterMachine.Cap(limit)
  }

  /**
   What a wait does to window, counter and clock: the call has the first slot of a new window or the next one of
   the window it found, and that window is a second in which it was waiting.
   */
  predicate GotSlot(limit: nat, start: nat, count: nat, ms: nat, start': nat, count': nat, ms': nat) {
    && (if start' == start then count' == count + 1 <= limit else count' == 1)
    && ms / 1000 <= start' <= ms' / 1000
  }

  /** A call that got its slot, whether or not it then publishes. */
  lemma SlotKeepsPace(limit: nat, published: seq<nat>, start: nat, count: nat, start': nat, count': nat)
    requires WithinPace(limit, published, start, count) && start <= start'
    requires limit < LimiterMachine.U32_MAX ==> if start' == start then count' == count + 1 <= limit else count' == 1
    ensures WithinPace(limit, published, start', count') && WithinPace(limit, published + [start'], start', count')
  {
    if limit < LimiterMachine.U32_MAX && start' != start {
      assert start' !in published;
    }
  }

  /** One call of `save_event`: what it leaves, and whether it reached the stream. */
  datatype Call = Call(start: nat, count: nat, fromMs: nat, toMs: nat, published: bool)

  /** Calls one after the other on a clock that only moves on, the first on a new limiter. */
  predicate InTurn(limit: nat, calls: seq<Call>) {
    calls == []
    || (var before, c := calls[..|calls| - 1], calls[|calls| - 1];
        && InTurn(limit, before)
        && if before == [] then GotSlot(limit, 0, 0, c.fromMs, c.start, c.count, c.toMs)
           else
             var b := before[|before| - 1];
             b.toMs <= c.fromMs && GotSlot(limit, b.start, b.count, c.fromMs, c.start, c.count, c.toMs))
  }

  function PublishedIn(calls: seq<Call>): seq<nat> {
    if calls == [] then []
    else
      var c := calls[|calls| - 1];
      PublishedIn(calls[..|calls| - 1]) + (if c.published then [c.start] else [])
  }

  /** Any sequence of calls publishes at most max(1, limit) events in a second. */
  lemma {:induction false} SecondPublishesAtMost(limit: nat, calls: seq<Call>, t: nat)
    requires limit < LimiterMachine.U32_MAX && InTurn(limit, calls)
    ensures multiset(PublishedIn(calls))[t] <= LimiterMachine.Cap(limit)
    ensures if calls == [] then PublishedIn(calls) == []
            else var c := calls[|calls| - 1];
                 WithinPace(limit, PublishedIn(calls), c.start, c.count) && c.start <= c.toMs / 1000
  {
    if calls == [] {
    } else {
      var before, c := calls[..|calls| - 1], calls[|calls| - 1];
      SecondPublishesAtMost(limit, before, t);
      var published := PublishedIn(before);
      assert published + [] == published;
      if before == [] {
        SlotKeepsPace(limit, published, 0, 0, c.start, c.count);
      } else {
        var b := before[|before| - 1];
        SlotKeepsPace(limit, published, b.start, b.count, c.start, c.count);
      }
    }
  }

  class SkialithStore {
    const limiter: RateLimiter.RateLimiter
    const rateLimit: nat
    var wal: seq<PendingEvent>              // what the stream holds
    var writer: BatchWriter.BatchWriter     // the task behind enqueue_tx
    ghost var inflight: seq<PendingEvent>
    ghost var refused: seq<PendingEvent>
    ghost var published: seq<nat>           // for each message, the second in which its call got its slot

    /** This object is the machine state `s`, as far as its callers can see. */
    ghost predicate Agrees(s: Store)
      reads this, writer, writer.tidb
    {
      && s.writers != []
      && s.writers[|s.writers| - 1] == writer.View()
      && s.table == writer.tidb.agentEvents
      && s.wal == wal && s.inflight == inflight && s.refused == refused
    }

    ghost predicate Paced()
      reads this, limiter
    {
      |published| == |wal| && WithinPace(rateLimit, published, limiter.windowStart, limiter.count)
    }

    /** `new`: the batch size and the flush interval are clamped here. */
    constructor (tidb: BatchWriter.TidbPool, maxBatchSize: nat, lingerMs: nat, capacity: nat, rateLimit: nat)
      ensures writer.maxBatchSize <= 64 && writer.tidb == tidb && fresh(writer) && fresh(limiter)
      ensures writer.maxBatchSize == maxBatchSize <==> maxBatchSize <= 64
      ensures writer.maxBatchSize != maxBatchSize ==> writer.maxBatchSize == 64
      ensures writer.lingerMs == lingerMs <==> lingerMs >= 100
      ensures writer.lingerMs != lingerMs ==> writer.lingerMs == 100
      ensures writer.capacity == capacity && !writer.hasDeadLetter
      ensures this.rateLimit == rateLimit && Paced()
      ensures Agrees(Init(tidb.agentEvents,
                          if maxBatchSize < MAX_BATCH_SIZE then maxBatchSize else MAX_BATCH_SIZE, capacity))
    {
      this.rateLimit := rateLimit;
      limiter := new RateLimiter.RateLimiter();
      writer := new BatchWriter.BatchWriter(
        tidb, if maxBatchSize < MAX_BATCH_SIZE then maxBatchSize else MAX_BATCH_SIZE,
        if lingerMs > MIN_FLUSH_INTERVAL_MS then lingerMs else MIN_FLUSH_INTERVAL_MS, capacity, false);
      wal, inflight, refused, published := [], [], [], [];
    }

    /** `with_dead_letter`: a second writer with the default configuration, which is not clamped. */
    method WithDeadLetter(ghost s: Store)
      requires Agrees(s) && inflight == []
      modifies this`writer, writer`open
      ensures fresh(writer) && writer.tidb == old(writer.tidb) && writer.lingerMs == 250
      ensures writer.maxBatchSize == 256 && writer.capacity == 10_000 && writer.hasDeadLetter
      ensures old(writer).chan == old(writer.chan) && !old(writer).open && writer.open && writer.chan == []
      ensures old(Paced()) ==> Paced()
      ensures Agrees(Step(s, Action.WithDeadLetter(DEFAULT_BATCH_SIZE, DEFAULT_CAPACITY)))
      ensures old(writer).View() == DropSender(old(writer.View()))
    {
      var next := new BatchWriter.BatchWriter(
        writer.tidb, DEFAULT_BATCH_SIZE, DEFAULT_LINGER_MS, DEFAULT_CAPACITY, true);
      writer.open := false;
      writer := next;
    }

    /** `js.publish` and its acknowledgement. A lost acknowledgement leaves the message in the stream. */
    method PublishToStream(e: PendingEvent, publish: PublishOutcome) returns (acked: bool)
      modifies this`wal, this`published, this`refused
      ensures acked <==> publish.Acked?
      ensures wal == old(wal) + (if publish.Failed? then [] else [e])
      ensures published == old(published) + (if publish.Failed? then [] else [limiter.windowStart])
      ensures refused == old(refused) + (if publish.Unacked? then [e] else [])
    {
      acked := publish.Acked?;
      if !publish.Failed? {
        wal, published := wal + [e], published + [limiter.windowStart];
      }
      if publish.Unacked? {
        refused := refused + [e];
      }
    }

    /** `enqueue_tx.send`, which fails only when the writer has gone. */
    method SendToWriter(e: PendingEvent) returns (r: SaveResult)
      modifies this`inflight, this`refused, writer`chan, writer`accepted
      ensures writer.View() == Send(old(writer.View()), e)
      ensures r.Saved? <==> HasRoom(old(writer.View()))
      ensures r.Saved? ==> writer.chan == old(writer.chan) + [e] && inflight == old(inflight) && refused == old(refused)
      ensures r.QueueClosed? <==> writer.stopped
      ensures r.QueueClosed? ==> writer.chan == old(writer.chan) && inflight == old(inflight)
                                 && refused == old(refused) + [e]
      ensures !r.Saved? && !r.QueueClosed? ==> r.Blocked? && writer.chan == old(writer.chan)
                                               && inflight == old(inflight) + [e] && refused == old(refused)
    {
      var taken := writer.Enqueue(e);
      if taken {
        return Saved;
      } else if writer.stopped {
        refused := refused + [e];
        return QueueClosed;
      } else {
        inflight := inflight + [e];
        return Blocked;
      }
    }

    /** The wait for a slot, with what it leaves for the pace: the slot may now be used, or not. */
    method AwaitSlot(clock: RateLimiter.Clock)
      modifies limiter, clock
      ensures clock.ms >= old(clock.ms)
      ensures rateLimit == 0xFFFF_FFFF ==> limiter.View() == old(limiter.View()) && clock.ms == old(clock.ms)
      ensures rateLimit != 0xFFFF_FFFF ==>
                GotSlot(rateLimit, old(limiter.windowStart), old(limiter.count), old(clock.ms),
                        limiter.windowStart, limiter.count, clock.ms)
      ensures WithinPace(rateLimit, published, old(limiter.windowStart), old(limiter.count))
              && old(limiter.windowStart) <= old(clock.ms) / 1000
              ==> WithinPace(rateLimit, published, limiter.windowStart, limiter.count)
                  && WithinPace(rateLimit, published + [limiter.windowStart], limiter.windowStart, limiter.count)
    {
      var at, sleeps := limiter.Wait(rateLimit, clock);
      if WithinPace(rateLimit, published, old(limiter.windowStart), old(limiter.count))
         && old(limiter.windowStart) <= old(clock.ms) / 1000 {
        SlotKeepsPace(rateLimit, published, old(limiter.windowStart), old(limiter.count),
                      limiter.windowStart, limiter.count);
      }
    }

    /** What follows the wait. Nothing reaches the channel that the stream has not acknowledged. */
    method PublishAndSend(e: PendingEvent, serializes: bool, publish: PublishOutcome, ghost s: Store)
      returns (r: SaveResult)
      requires Agrees(s)
      modifies this`wal, this`inflight, this`refused, this`published, writer`chan, writer`accepted
      ensures Agrees(Run(s, CallSteps(e, serializes, publish, |old(inflight)|)))
      ensures wal == old(wal) + (if serializes && !publish.Failed? then [e] else [])
      ensures published == old(published) + (if serializes && !publish.Failed? then [limiter.windowStart] else [])
      ensures writer.chan == old(writer.chan) + (if r.Saved? then [e] else [])
      ensures r.Saved? ==> inflight == old(inflight)
      ensures r.SerializeError? <==> !serializes
      ensures r.PublishError? <==> serializes && !publish.Acked?
      ensures r.Saved? <==> serializes && publish.Acked? && HasRoom(old(writer.View()))
      ensures r.QueueClosed? <==> serializes && publish.Acked? && old(writer.stopped)
    {
      CallResult(s, e, serializes, publish);
      PublishThenEnqueue(s, e);
      hide CallSteps, Run, Step;
      if !serializes {
        return SerializeError;
      }
      var acked := PublishToStream(e, publish);
      if !acked {
        return PublishError;
      }
      r := SendToWriter(e);
    }

    /** `save_event`: wait for a slot, publish and await the acknowledgement, enqueue. */
    method SaveEvent(agentId: string, eventId: string, body: string, serializes: bool, publish: PublishOutcome,
                     clock: RateLimiter.Clock, ghost s: Store)
      returns (r: SaveResult)
      requires Agrees(s)
      modifies this`wal, this`inflight, this`refused, this`published, writer`chan, writer`accepted, limiter, clock
      ensures clock.ms >= old(clock.ms)
      ensures rateLimit == 0xFFFF_FFFF ==>
                limiter.View() == old(limiter.View()) && clock.ms == old(clock.ms)
      ensures rateLimit != 0xFFFF_FFFF ==>
                GotSlot(rateLimit, old(limiter.windowStart), old(limiter.count), old(clock.ms),
                        limiter.windowStart, limiter.count, clock.ms)
      ensures old(Paced()) && old(limiter.windowStart) <= old(clock.ms) / 1000 ==> Paced()
      ensures var e := PendingEvent(agentId, eventId, body);
              && Agrees(Run(s, CallSteps(e, serializes, publish, |old(inflight)|)))
              && wal == old(wal) + (if serializes && !publish.Failed? then [e] else [])
              && published == old(published) + (if serializes && !publish.Failed? then [limiter.windowStart] else [])
              && writer.chan == old(writer.chan) + (if r.Saved? then [e] else [])
      ensures r.Saved? ==> inflight == old(inflight)
      ensures r.SerializeError? <==> !serializes
      ensures r.PublishError? <==> serializes && !publish.Acked?
      ensures r.Saved? <==> serializes && publish.Acked? && HasRoom(old(writer.View()))
      ensures r.QueueClosed? <==> serializes && publish.Acked? && old(writer.stopped)
    {
      hide WithinPace, CallSteps, Run, Receiving;
      assert published + [] == published;
      AwaitSlot(clock);
      r := PublishAndSend(PendingEvent(agentId, eventId, body), serializes, publish, s);
    }
  }
}
