/** `run_tidb_batch_writer` and its two flush functions as the program has them: a loop over a batch it owns. */
module BatchWriter {
  import opened AgentEvents
  import opened WriterMachine

  /** The connection pool, as far as the writer is concerned: the rows of `agent_events`. */
  class TidbPool {
    var agentEvents: seq<PendingEvent>

    constructor (rows: seq<PendingEvent>)
      ensures agentEvents == rows
    {
      agentEvents := rows;
    }
  }

  class BatchWriter {
    const tidb: TidbPool
    const maxBatchSize: nat
    const capacity: nat
    const hasDeadLetter: bool
    const lingerMs: nat                       // the ticker's interval

    var chan: seq<PendingEvent>               // the receiver's queue
    var open: bool                            // a sender still exists
    var batch: seq<PendingEvent>
    var deadLetters: seq<seq<PendingEvent>>   // what the dead-letter receiver was sent
    var stopped: bool                         // the loop has ended
    ghost var accepted: seq<PendingEvent>
    ghost var finished: seq<Flush>

    /** The machine state this object stands for, between two signals. */
    ghost function View(): Writer
      reads this
    {
      Writer(maxBatchSize, capacity, hasDeadLetter, open, chan, batch,
             if stopped then Stopped else Selecting, accepted, finished, [])
    }

    constructor (tidb: TidbPool, maxBatchSize: nat, lingerMs: nat, capacity: nat, hasDeadLetter: bool)
      ensures this.tidb == tidb && this.lingerMs == lingerMs && deadLetters == []
      ensures View() == NewWriter(maxBatchSize, capacity, hasDeadLetter)
    {
      this.tidb, this.maxBatchSize, this.lingerMs := tidb, maxBatchSize, lingerMs;
      this.capacity, this.hasDeadLetter := capacity, hasDeadLetter;
      chan, open, batch, deadLetters, stopped, accepted, finished := [], true, [], [], false, [], [];
    }

    /** `send` on the channel: it takes the event if it is open and has room. */
    method Enqueue(e: PendingEvent) returns (taken: bool)
      modifies this`chan, this`accepted
      ensures View() == Send(old(View()), e)
      ensures taken <==> open && !stopped && |old(chan)| < capacity
      ensures chan == old(chan) + (if taken then [e] else [])
    {
      taken := open && !stopped && |chan| < capacity;
      if taken {
        chan, accepted := chan + [e], accepted + [e];
      }
    }

    /** `flush_batch`: the batch is cleared only after a commit that was reported. */
    method FlushBatch(outcome: DbOutcome) returns (ok: bool)
      modifies this`batch, tidb
      ensures Result(tidb.agentEvents, ok) == Attempt(old(tidb.agentEvents), old(batch), outcome)
      ensures batch == if ok then [] else old(batch)
    {
      if outcome.Down? {
        return false;
      }
      if !Accepts(tidb.agentEvents, batch) {
        return false;
      }
      tidb.agentEvents := tidb.agentEvents + batch;
      if outcome.AckLost? {
        return false;
      }
      batch := [];
      return true;
    }

    /** `flush_batch_with_retry`: it returns with an empty batch whatever happened. */
    method FlushBatchWithRetry(outcomes: seq<DbOutcome>, receiverOpen: bool, ghost closing: bool)
      requires |outcomes| == ATTEMPTS
      modifies this`batch, this`deadLetters, this`finished, tidb
      ensures var w := old(View()).(phase := Flushing([], false, closing));
              var (w', table') := FlushAll(w, old(tidb.agentEvents), outcomes, receiverOpen);
              && tidb.agentEvents == table'
              && w' == View().(phase := if closing then Stopped else Selecting)
      ensures batch == []
      ensures var r := Retry(old(tidb.agentEvents), old(batch), outcomes);
              && tidb.agentEvents == r.table
              && deadLetters == old(deadLetters)
                                + (if !r.ok && hasDeadLetter && receiverOpen then [old(batch)] else [])
    {
      ghost var w := View().(phase := Flushing([], false, closing));
      ghost var stored, used := FlushAllIsRetry(w, tidb.agentEvents, outcomes, receiverOpen);
      hide FlushAll, Accepts;
      ghost var goal := Retry(tidb.agentEvents, batch, outcomes);
      var events := batch;

      var attempt := 0;
      while attempt < ATTEMPTS - 1
        invariant 0 <= attempt <= ATTEMPTS - 1
        invariant batch == events && deadLetters == old(deadLetters) && finished == old(finished)
        invariant Retry(tidb.agentEvents, events, outcomes[attempt..]) == goal
      {
        assert outcomes[attempt..][1..] == outcomes[attempt + 1..];
        var ok := FlushBatch(outcomes[attempt]);
        if ok {
          finished := finished + [Flush(events, Committed, stored, used)];
          return;
        }
        attempt := attempt + 1;
      }
      assert outcomes[attempt..] == [outcomes[attempt]];
      var ok := FlushBatch(outcomes[attempt]);
      if ok {
        finished := finished + [Flush(events, Committed, stored, used)];
        return;
      }
      var failed := batch;
      batch := [];
      finished := finished + [Flush(events, FateOf(w, false, receiverOpen), stored, used)];
      if hasDeadLetter && receiverOpen {
        deadLetters := deadLetters + [failed];
      }
    }

    /** One round of the select loop, or what a sender does to the channel between two rounds. */
    method Select(signal: Signal)
      requires !stopped && ValidSignal(signal)
      modifies this, tidb
      ensures (View(), tidb.agentEvents) == OnSignal(old(View()), old(tidb.agentEvents), signal)
    {
      match signal
      case Sent(e) =>
        var taken := Enqueue(e);
      case SenderDropped =>
        open := false;
      case Recv(outcomes, receiverOpen) =>
        if chan != [] {
          batch, chan := batch + [chan[0]], chan[1..];
          if |batch| >= maxBatchSize {
            FlushBatchWithRetry(outcomes, receiverOpen, false);
          }
        } else if !open {
          if batch != [] {
            FlushBatchWithRetry(outcomes, receiverOpen, true);
          }
          stopped := true;
        }
      case Ticked(outcomes, receiverOpen) =>
        if batch != [] {
          FlushBatchWithRetry(outcomes, receiverOpen, false);
        }
    }

    /** `run_tidb_batch_writer`, over any finite part of a schedule of its environment. */
    method Run(signals: seq<Signal>)
      requires !stopped
      requires forall i :: 0 <= i < |signals| ==> ValidSignal(signals[i])
      modifies this, tidb
      ensures (View(), tidb.agentEvents) == RunSignals(old(View()), old(tidb.agentEvents), signals)
    {
      ghost var goal := RunSignals(View(), tidb.agentEvents, signals);
      var i := 0;
      while i < |signals|
        invariant 0 <= i <= |signals| && !stopped
        invariant RunSignals(View(), tidb.agentEvents, signals[i..]) == goal
      {
        assert signals[i..][0] == signals[i] && signals[i..][1..] == signals[i + 1..];
        Select(signals[i]);
        i := i + 1;
        if stopped {
          RunAfterStop(View(), tidb.agentEvents, signals[i..]);
          break;
        }
      }
    }
  }
}
