/**
 One batch writer as a machine whose steps are what no other task can split: a receive, a tick, one
 transaction. Between two of its steps senders may enqueue and other writers may use the table.
 */
module WriterMachine {
  import opened AgentEvents

  /** Three delays between attempts, then a final one. */
  const ATTEMPTS: nat := 4

  datatype Fate = Committed | DeadLettered | Lost

  /** A finished flush: its events, where they went, whether they are rows now, and every outcome it met. */
  datatype Flush = Flush(events: seq<PendingEvent>, fate: Fate, stored: bool, outcomes: seq<DbOutcome>)

  datatype Phase =
    | Selecting
    | Flushing(outcomes: seq<DbOutcome>, stored: bool, closing: bool)
    | Stopped
    | Crashed(stored: bool, interrupted: seq<PendingEvent>)  // the batch it held, and whether it was rows already

  datatype Writer = Writer(
    maxBatch: nat,
    capacity: nat,
    deadLetter: bool,
    open: bool,                      // the sending half still exists
    chan: seq<PendingEvent>,
    batch: seq<PendingEvent>,
    phase: Phase,
    accepted: seq<PendingEvent>,     // history: everything the channel ever took
    finished: seq<Flush>,            // history: every flush, in order
    discarded: seq<PendingEvent>)    // history: what a crash dropped

  function NewWriter(maxBatch: nat, capacity: nat, deadLetter: bool): Writer {
    Writer(maxBatch, capacity, deadLetter, true, [], [], Selecting, [], [], [])
  }

  predicate Receiving(w: Writer) {
    w.phase.Selecting? || w.phase.Flushing?
  }

  predicate HasRoom(w: Writer) {
    w.open && Receiving(w) && |w.chan| < w.capacity
  }

  /** The batch size at which a flush starts. A configured size of 0 acts as 1, because the test follows the push. */
  function BatchBound(w: Writer): nat {
    if w.maxBatch == 0 then 1 else w.maxBatch
  }

  function Send(w: Writer, e: PendingEvent): Writer {
    if HasRoom(w) then w.(chan := w.chan + [e], accepted := w.accepted + [e]) else w
  }

  function DropSender(w: Writer): Writer {
    w.(open := false)
  }

  /** The receive branch of the select loop. It is not ready while the channel is empty but open. */
  function Receive(w: Writer): Writer {
    if !w.phase.Selecting? then w
    else if w.chan != [] then
      var batch := w.batch + [w.chan[0]];
      w.(chan := w.chan[1..], batch := batch,
         phase := if |batch| >= w.maxBatch then Flushing([], false, false) else Selecting)
    else if w.open then w
    else if w.batch != [] then w.(phase := Flushing([], false, true))
    else w.(phase := Stopped)
  }

  /** The ticker branch. */
  function Tick(w: Writer): Writer {
    if w.phase.Selecting? && w.batch != [] then w.(phase := Flushing([], false, false)) else w
  }

  function FinishFlush(w: Writer, fate: Fate, stored: bool, outcomes: seq<DbOutcome>): Writer
    requires w.phase.Flushing?
  {
    w.(batch := [],
       finished := w.finished + [Flush(w.batch, fate, stored, outcomes)],
       phase := if w.phase.closing then Stopped else Selecting)
  }

  predicate Inserts(w: Writer, table: seq<PendingEvent>, outcome: DbOutcome) {
    w.phase.Flushing? && !outcome.Down? && Accepts(table, w.batch)
  }

  function FateOf(w: Writer, ok: bool, receiverOpen: bool): Fate {
    if ok then Committed else if w.deadLetter && receiverOpen then DeadLettered else Lost
  }

  /** One transaction of a flush: success ends it, the fourth failure sends the batch away. */
  function AttemptStep(w: Writer, table: seq<PendingEvent>, outcome: DbOutcome, receiverOpen: bool): Writer {
    if !w.phase.Flushing? then w
    else
      var stored := w.phase.stored || Inserts(w, table, outcome);
      var outcomes := w.phase.outcomes + [outcome];
      if Attempt(table, w.batch, outcome).ok then FinishFlush(w, Committed, stored, outcomes)
      else if |outcomes| < ATTEMPTS then w.(phase := Flushing(outcomes, stored, w.phase.closing))
      else FinishFlush(w, FateOf(w, false, receiverOpen), stored, outcomes)
  }

  function TableAfter(w: Writer, table: seq<PendingEvent>, outcome: DbOutcome): seq<PendingEvent> {
    if w.phase.Flushing? then Attempt(table, w.batch, outcome).table else table
  }

  function Crash(w: Writer): Writer {
    if Receiving(w)
    then w.(phase := Crashed(w.phase.Flushing? && w.phase.stored, w.batch),
            chan := [], batch := [], discarded := w.batch + w.chan)
    else w
  }

  // ---- what every step of a writer keeps ----

  function Flat(flushes: seq<Flush>): seq<PendingEvent> {
    if flushes == [] then [] else Flat(flushes[..|flushes| - 1]) + flushes[|flushes| - 1].events
  }

  lemma FlatAppend(flushes: seq<Flush>, f: Flush)
    ensures Flat(flushes + [f]) == Flat(flushes) + f.events
  {
  }

  /** What a finished flush can look like, for a writer with this batch bound and dead-letter setting. */
  predicate FlushOk(bound: nat, deadLetter: bool, f: Flush) {
    && 1 <= |f.events| <= bound
    && 1 <= |f.outcomes| <= ATTEMPTS
    && (f.stored ==> Reached(f.outcomes))
    && (f.fate.Committed? ==> f.stored && f.outcomes[|f.outcomes| - 1].Healthy?)
    && (!f.fate.Committed? ==> |f.outcomes| == ATTEMPTS)
    && (!f.fate.Committed? && f.stored ==> AckLost in f.outcomes)
    && (f.fate.DeadLettered? ==> deadLetter)
  }

  /** Nothing the channel took is missing, doubled or out of order. */
  predicate Conserved(w: Writer) {
    w.accepted == Flat(w.finished) + w.discarded + w.batch + w.chan
  }

  predicate Bounded(w: Writer) {
    && |w.chan| <= w.capacity
    && |w.discarded| <= w.capacity + BatchBound(w)
    && (w.discarded != [] ==> w.phase.Crashed?)
    && match w.phase
       case Selecting => |w.batch| < BatchBound(w)
       case Flushing(outcomes, stored, closing) =>
         && 1 <= |w.batch| <= BatchBound(w)
         && |outcomes| < ATTEMPTS
         && (stored ==> AckLost in outcomes && Reached(outcomes))
         && (closing ==> !w.open && w.chan == [])
       case Stopped => w.batch == [] && w.chan == [] && !w.open
       case Crashed(stored, interrupted) =>
         w.batch == [] && w.chan == [] && interrupted <= w.discarded
  }

  predicate Inv(w: Writer) {
    && Conserved(w)
    && Bounded(w)
    && forall i :: 0 <= i < |w.finished| ==> FlushOk(BatchBound(w), w.deadLetter, w.finished[i])
  }

  lemma NewWriterInv(maxBatch: nat, capacity: nat, deadLetter: bool)
    ensures Inv(NewWriter(maxBatch, capacity, deadLetter))
  {
  }

  lemma SendKeepsInv(w: Writer, e: PendingEvent)
    requires Inv(w)
    ensures Inv(Send(w, e)) && Inv(DropSender(w))
  {
  }

  lemma ReceiveKeepsInv(w: Writer)
    requires Inv(w)
    ensures Inv(Receive(w)) && Inv(Tick(w))
  {
    hide FlushOk, Flat;
    if w.chan != [] {
      assert w.batch + w.chan == w.batch + [w.chan[0]] + w.chan[1..];
    }
  }

  lemma CrashKeepsInv(w: Writer)
    requires Inv(w)
    ensures Inv(Crash(w))
    ensures Receiving(w) ==> Crash(w).discarded == w.batch + w.chan
  {
  }

  lemma FinishFlushKeepsInv(w: Writer, fate: Fate, stored: bool, outcomes: seq<DbOutcome>)
    requires Inv(w) && w.phase.Flushing?
    requires FlushOk(BatchBound(w), w.deadLetter, Flush(w.batch, fate, stored, outcomes))
    ensures Inv(FinishFlush(w, fate, stored, outcomes))
  {
    hide FlushOk, Flat;
    FlatAppend(w.finished, Flush(w.batch, fate, stored, outcomes));
  }

  lemma AttemptKeepsInv(w: Writer, table: seq<PendingEvent>, outcome: DbOutcome, receiverOpen: bool)
    requires Inv(w)
    ensures Inv(AttemptStep(w, table, outcome, receiverOpen))
  {
    if w.phase.Flushing? {
      var stored := w.phase.stored || Inserts(w, table, outcome);
      var outcomes := w.phase.outcomes + [outcome];
      assert outcomes[|outcomes| - 1] == outcome;
      assert forall k :: 0 <= k < |w.phase.outcomes| ==> outcomes[k] == w.phase.outcomes[k];
      assert stored ==> Reached(outcomes);
      if Attempt(table, w.batch, outcome).ok {
        FinishFlushKeepsInv(w, Committed, stored, outcomes);
      } else {
        assert stored ==> AckLost in outcomes;
        if |outcomes| == ATTEMPTS {
          FinishFlushKeepsInv(w, FateOf(w, false, receiverOpen), stored, outcomes);
        }
      }
    }
  }

  // ---- a flush that nobody interrupts ----

  /** Steps a flush through the outcomes until it is over. */
  function FlushAll(w: Writer, table: seq<PendingEvent>, outcomes: seq<DbOutcome>, receiverOpen: bool)
    : (Writer, seq<PendingEvent>)
    decreases |outcomes|
  {
    if !w.phase.Flushing? || outcomes == [] then (w, table)
    else FlushAll(AttemptStep(w, table, outcomes[0], receiverOpen),
                  TableAfter(w, table, outcomes[0]), outcomes[1..], receiverOpen)
  }

  lemma InsertChangesTable(w: Writer, table: seq<PendingEvent>, outcome: DbOutcome)
    requires w.phase.Flushing?
    ensures TableAfter(w, table, outcome) != table <==> Inserts(w, table, outcome)
    ensures Inserts(w, table, outcome) ==> TableAfter(w, table, outcome) == table + w.batch
  {
  }

  lemma FlushEnds(w: Writer, table: seq<PendingEvent>, outcomes: seq<DbOutcome>, receiverOpen: bool)
    requires w.phase.Flushing? && outcomes != []
    requires |w.phase.outcomes| + |outcomes| == ATTEMPTS
    requires Attempt(table, w.batch, outcomes[0]).ok || |outcomes| == 1
    ensures var a := Attempt(table, w.batch, outcomes[0]);
            FlushAll(w, table, outcomes, receiverOpen)
            == (FinishFlush(w, FateOf(w, a.ok, receiverOpen), w.phase.stored || Inserts(w, table, outcomes[0]),
                            w.phase.outcomes + [outcomes[0]]), a.table)
  {
  }

  lemma FlushContinues(w: Writer, table: seq<PendingEvent>, outcomes: seq<DbOutcome>, receiverOpen: bool)
    returns (w1: Writer)
    requires w.phase.Flushing? && |outcomes| > 1
    requires |w.phase.outcomes| + |outcomes| == ATTEMPTS
    requires !Attempt(table, w.batch, outcomes[0]).ok
    ensures w1 == w.(phase := Flushing(w.phase.outcomes + [outcomes[0]],
                                       w.phase.stored || Inserts(w, table, outcomes[0]), w.phase.closing))
    ensures FlushAll(w, table, outcomes, receiverOpen)
            == FlushAll(w1, Attempt(table, w.batch, outcomes[0]).table, outcomes[1..], receiverOpen)
  {
    w1 := AttemptStep(w, table, outcomes[0], receiverOpen);
  }

  /** After a failed attempt, either nothing was stored or nothing more will be. */
  lemma RetryStaysPut(table: seq<PendingEvent>, batch: seq<PendingEvent>, outcomes: seq<DbOutcome>)
    requires outcomes != [] && !Attempt(table, batch, outcomes[0]).ok
    ensures var a := Attempt(table, batch, outcomes[0]);
            && Retry(table, batch, outcomes) == Retry(a.table, batch, outcomes[1..])
            && (a.table != table ==> Retry(a.table, batch, outcomes[1..]).table == a.table)
  {
    var a := Attempt(table, batch, outcomes[0]);
    if a.table != table {
      StoredBatchIsRefused(table, batch);
      RefusedBatchNeverCommits(a.table, batch, outcomes[1..]);
    }
  }

  /** Stepped without interference, a flush is the retry loop, and it always leaves the batch empty. */
  lemma {:induction false} FlushAllIsRetry(
      w: Writer, table: seq<PendingEvent>, outcomes: seq<DbOutcome>, receiverOpen: bool)
    returns (stored: bool, used: seq<DbOutcome>)
    requires w.phase.Flushing? && outcomes != []
    requires |w.phase.outcomes| + |outcomes| == ATTEMPTS
    ensures var r := Retry(table, w.batch, outcomes);
            && FlushAll(w, table, outcomes, receiverOpen)
               == (FinishFlush(w, FateOf(w, r.ok, receiverOpen), stored, used), r.table)
            && stored == (w.phase.stored || r.table != table)
            && used <= w.phase.outcomes + outcomes
            && |used| == |w.phase.outcomes| + (if r.ok then FirstReached(outcomes) + 1 else |outcomes|)
    decreases |outcomes|
  {
    var o, rest := outcomes[0], outcomes[1..];
    RetryIsDecidedByFirstReached(table, w.batch, outcomes);
    var a := Attempt(table, w.batch, o);
    used := w.phase.outcomes + [o];
    InsertChangesTable(w, table, o);
    assert used + rest == w.phase.outcomes + outcomes;
    if a.ok || rest == [] {
      stored := w.phase.stored || Inserts(w, table, o);
      FlushEnds(w, table, outcomes, receiverOpen);
    } else {
      var w1 := FlushContinues(w, table, outcomes, receiverOpen);
      RetryStaysPut(table, w.batch, outcomes);
      stored, used := FlushAllIsRetry(w1, a.table, rest, receiverOpen);
    }
  }

  // ---- the select loop ----

  datatype Signal =
    | Sent(e: PendingEvent)
    | SenderDropped
    | Recv(outcomes: seq<DbOutcome>, receiverOpen: bool)
    | Ticked(outcomes: seq<DbOutcome>, receiverOpen: bool)

  /** Each branch carries what the environment will do to the flush it may start. */
  predicate ValidSignal(s: Signal) {
    (s.Recv? || s.Ticked?) ==> |s.outcomes| == ATTEMPTS
  }

  function OnSignal(w: Writer, table: seq<PendingEvent>, s: Signal): (Writer, seq<PendingEvent>) {
    if !w.phase.Selecting? then (w, table)
    else
      match s
      case Sent(e) => (Send(w, e), table)
      case SenderDropped => (DropSender(w), table)
      case Recv(outcomes, receiverOpen) => FlushAll(Receive(w), table, outcomes, receiverOpen)
      case Ticked(outcomes, receiverOpen) => FlushAll(Tick(w), table, outcomes, receiverOpen)
  }

  function RunSignals(w: Writer, table: seq<PendingEvent>, signals: seq<Signal>): (Writer, seq<PendingEvent>)
    decreases |signals|
  {
    if signals == [] then (w, table)
    else
      var (w', table') := OnSignal(w, table, signals[0]);
      RunSignals(w', table', signals[1..])
  }

  lemma {:induction false} RunAfterStop(w: Writer, table: seq<PendingEvent>, signals: seq<Signal>)
    requires !w.phase.Selecting?
    ensures RunSignals(w, table, signals) == (w, table)
    decreases |signals|
  {
    if signals == [] {
    } else {
      RunAfterStop(w, table, signals[1..]);
    }
  }

  // ---- what each signal does, in terms of the writer's fields ----

  /**
   One flush of `events` was finished: four attempts at most, stopping at the first that reports success. The
   rows are in the table exactly if they are legal and an attempt got through; the flush is committed exactly if
   the first such attempt was also reported, and otherwise dead-lettered exactly if somebody receives that.
   */
  ghost predicate OneFlush(w: Writer, events: seq<PendingEvent>, table: seq<PendingEvent>, outcomes: seq<DbOutcome>,
                           receiverOpen: bool, finished: seq<Flush>, table': seq<PendingEvent>) {
    && |finished| == |w.finished| + 1 && w.finished <= finished
    && var f := finished[|w.finished|];
       && f.events == events
       && (f.stored <==> Accepts(table, events) && exists k :: 0 <= k < |outcomes| && outcomes[k] != Down)
       && table' == (if f.stored then table + events else table)
       && (f.fate == Committed <==>
             Accepts(table, events)
             && exists k :: 0 <= k < |outcomes| && outcomes[k] == Healthy && f.outcomes == outcomes[..k + 1]
                            && forall j :: 0 <= j < k ==> outcomes[j] == Down)
       && (f.fate != Committed ==>
             f.outcomes == outcomes && f.fate == if w.deadLetter && receiverOpen then DeadLettered else Lost)
  }

  lemma FlushAllIsOneFlush(w: Writer, table: seq<PendingEvent>, outcomes: seq<DbOutcome>, receiverOpen: bool)
    requires w.phase.Flushing? && w.phase.outcomes == [] && !w.phase.stored && |outcomes| == 4
    ensures var (w', table') := FlushAll(w, table, outcomes, receiverOpen);
            && w' == w.(batch := [], finished := w'.finished, phase := if w.phase.closing then Stopped else Selecting)
            && OneFlush(w, w.batch, table, outcomes, receiverOpen, w'.finished, table')
  {
    var stored, used := FlushAllIsRetry(w, table, outcomes, receiverOpen);
    RetryIsDecidedByFirstReached(table, w.batch, outcomes);
  }

  lemma FlushAllWhenIdle(w: Writer, table: seq<PendingEvent>, outcomes: seq<DbOutcome>, receiverOpen: bool)
    requires !w.phase.Flushing?
    ensures FlushAll(w, table, outcomes, receiverOpen) == (w, table)
  {
  }

  /** The ticker flushes a partial batch at once; without one it does nothing. */
  lemma TickFlushesBatch(w: Writer, table: seq<PendingEvent>, outcomes: seq<DbOutcome>, receiverOpen: bool)
    requires w.phase.Selecting? && |outcomes| == 4
    ensures var (w', table') := OnSignal(w, table, Ticked(outcomes, receiverOpen));
            && w' == w.(batch := [], finished := w'.finished)
            && (w.batch == [] ==> w'.finished == w.finished && table' == table)
            && (w.batch != [] ==> OneFlush(w, w.batch, table, outcomes, receiverOpen, w'.finished, table'))
  {
    hide FlushAll;
    if w.batch == [] {
      FlushAllWhenIdle(w, table, outcomes, receiverOpen);
    } else {
      FlushAllIsOneFlush(w.(phase := Flushing([], false, false)), table, outcomes, receiverOpen);
    }
  }

  /** A receive takes the oldest event, and flushes exactly if the batch is full with it. */
  lemma ReceiveTakesOldest(w: Writer, table: seq<PendingEvent>, outcomes: seq<DbOutcome>, receiverOpen: bool)
    requires w.phase.Selecting? && w.chan != [] && |outcomes| == 4
    ensures var batch := w.batch + [w.chan[0]];
            var full := |batch| >= w.maxBatch;
            var (w', table') := OnSignal(w, table, Recv(outcomes, receiverOpen));
            && w' == w.(chan := w.chan[1..], batch := if full then [] else batch, finished := w'.finished)
            && (!full ==> w'.finished == w.finished && table' == table)
            && (full ==> OneFlush(w, batch, table, outcomes, receiverOpen, w'.finished, table'))
  {
    hide FlushAll;
    var v := Receive(w);
    if v.phase.Flushing? {
      FlushAllIsOneFlush(v, table, outcomes, receiverOpen);
    } else {
      FlushAllWhenIdle(v, table, outcomes, receiverOpen);
    }
  }

  /** A receive on an empty channel waits while it is open; after the close it flushes what is left and ends. */
  lemma ReceiveOnEmptyChannel(w: Writer, table: seq<PendingEvent>, outcomes: seq<DbOutcome>, receiverOpen: bool)
    requires w.phase.Selecting? && w.chan == [] && |outcomes| == 4
    ensures var (w', table') := OnSignal(w, table, Recv(outcomes, receiverOpen));
            && (w.open ==> w' == w && table' == table)
            && (!w.open ==> w' == w.(batch := [], finished := w'.finished, phase := Stopped))
            && (!w.open && w.batch == [] ==> w'.finished == w.finished && table' == table)
            && (!w.open && w.batch != [] ==>
                  OneFlush(w, w.batch, table, outcomes, receiverOpen, w'.finished, table'))
  {
    hide FlushAll;
    var v := Receive(w);
    if v.phase.Flushing? {
      FlushAllIsOneFlush(v, table, outcomes, receiverOpen);
    } else {
      FlushAllWhenIdle(v, table, outcomes, receiverOpen);
    }
  }

  function Sends(burst: seq<PendingEvent>): seq<Signal> {
    if burst == [] then [] else [Sent(burst[0])] + Sends(burst[1..])
  }

  function Fitting(burst: seq<PendingEvent>, room: nat): seq<PendingEvent> {
    if |burst| <= room then burst else burst[..room]
  }

  lemma FittingNone(burst: seq<PendingEvent>)
    ensures Fitting(burst, 0) == []
  {
  }

  lemma FittingCons(held: seq<PendingEvent>, burst: seq<PendingEvent>, room: nat)
    requires burst != []
    ensures held + Fitting(burst, room)
            == if room == 0 then held else held + [burst[0]] + Fitting(burst[1..], room - 1)
  {
    if room > 0 {
      assert burst == [burst[0]] + burst[1..];
      assert Fitting(burst, room) == [burst[0]] + Fitting(burst[1..], room - 1);
    }
  }

  /** Of a burst of sends, the channel takes in order exactly as many as it has room for. */
  lemma {:induction false} BurstFillsChannel(w: Writer, table: seq<PendingEvent>, burst: seq<PendingEvent>)
    requires w.phase.Selecting? && |w.chan| <= w.capacity
    ensures var taken := Fitting(burst, if w.open then w.capacity - |w.chan| else 0);
            RunSignals(w, table, Sends(burst)) == (w.(chan := w.chan + taken, accepted := w.accepted + taken), table)
    decreases |burst|
  {
    var room := if w.open then w.capacity - |w.chan| else 0;
    if burst == [] {
      assert w.chan + Fitting(burst, room) == w.chan && w.accepted + Fitting(burst, room) == w.accepted;
    } else {
      assert Sends(burst)[1..] == Sends(burst[1..]);
      BurstFillsChannel(Send(w, burst[0]), table, burst[1..]);
      FittingCons(w.chan, burst, room);
      FittingCons(w.accepted, burst, room);
      if room == 0 {
        FittingNone(burst[1..]);
        FittingNone(burst);
      }
    }
  }

  /** A flush does not hold up the senders: a send and an attempt may go in either order. */
  lemma SendAndAttemptCommute(w: Writer, table: seq<PendingEvent>, e: PendingEvent, outcome: DbOutcome,
                              receiverOpen: bool)
    requires Inv(w) && w.phase.Flushing?
    ensures Send(AttemptStep(w, table, outcome, receiverOpen), e)
            == AttemptStep(Send(w, e), table, outcome, receiverOpen)
    ensures TableAfter(Send(w, e), table, outcome) == TableAfter(w, table, outcome)
  {
  }

  /** A closed channel is drained: as many receives as it holds events, and one more, end the loop. */
  lemma {:induction false} ClosedWriterStops(w: Writer, table: seq<PendingEvent>, signals: seq<Signal>)
    requires w.phase.Selecting? && !w.open && |signals| == |w.chan| + 1
    requires forall i :: 0 <= i < |signals| ==> signals[i].Recv? && |signals[i].outcomes| == 4
    ensures var w' := RunSignals(w, table, signals).0;
            w'.phase.Stopped? && w'.batch == [] && w'.chan == [] && w'.accepted == w.accepted
    decreases |w.chan|
  {
    hide OnSignal, OneFlush;
    var (w1, table1) := OnSignal(w, table, signals[0]);
    var outcomes, receiverOpen := signals[0].outcomes, signals[0].receiverOpen;
    if w.chan == [] {
      ReceiveOnEmptyChannel(w, table, outcomes, receiverOpen);
      assert RunSignals(w1, table1, signals[1..]) == (w1, table1);
    } else {
      ReceiveTakesOldest(w, table, outcomes, receiverOpen);
      ClosedWriterStops(w1, table1, signals[1..]);
    }
  }
}
