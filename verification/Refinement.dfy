/** The batched writer against the synchronous one it replaces: one plain INSERT for each event, as it comes. */
module Refinement {
  import opened AgentEvents
  import opened WriterMachine

  /** The flush this signal may start reaches the database in one of its attempts. */
  predicate Reaches(s: Signal) {
    (s.Recv? || s.Ticked?) ==> Reached(s.outcomes)
  }

  predicate Schedule(signals: seq<Signal>) {
    forall i :: 0 <= i < |signals| ==> ValidSignal(signals[i]) && Reaches(signals[i])
  }

  predicate Unambiguous(signals: seq<Signal>) {
    forall i :: 0 <= i < |signals| && (signals[i].Recv? || signals[i].Ticked?) ==> AckLost !in signals[i].outcomes
  }

  predicate AllCommitted(w: Writer) {
    forall i :: 0 <= i < |w.finished| ==> w.finished[i].fate.Committed?
  }

  predicate Idle(w: Writer) {
    Inv(w) && (w.phase.Selecting? || w.phase.Stopped?)
  }

  lemma DistinctPrefix(a: seq<PendingEvent>, b: seq<PendingEvent>)
    requires a <= b && DistinctKeys(b)
    ensures DistinctKeys(a)
  {
  }

  lemma DistinctAccepts(table: seq<PendingEvent>, batch: seq<PendingEvent>)
    requires DistinctKeys(table + batch) && batch != []
    ensures Accepts(table, batch)
  {
    var rows := table + batch;
    forall i, j | 0 <= i < j < |batch| ensures KeyOf(batch[i]) != KeyOf(batch[j]) {
      assert rows[|table| + i] == batch[i] && rows[|table| + j] == batch[j];
    }
    forall i | 0 <= i < |batch| ensures !HasKey(table, KeyOf(batch[i])) {
      forall j | 0 <= j < |table| ensures KeyOf(table[j]) != KeyOf(batch[i]) {
        assert rows[j] == table[j] && rows[|table| + i] == batch[i];
      }
    }
  }

  lemma PoisonWhenUnambiguous(table: seq<PendingEvent>, batch: seq<PendingEvent>, outcomes: seq<DbOutcome>)
    requires Accepts(table, batch) && Reached(outcomes)
    ensures FirstReached(outcomes) < |outcomes|
    ensures AckLost !in outcomes ==> Retry(table, batch, outcomes).ok
  {
  }

  lemma {:induction false} FlushAllKeepsInv(
      w: Writer, table: seq<PendingEvent>, outcomes: seq<DbOutcome>, receiverOpen: bool)
    requires Inv(w)
    ensures Inv(FlushAll(w, table, outcomes, receiverOpen).0)
    decreases |outcomes|
  {
    if !w.phase.Flushing? || outcomes == [] {
    } else {
      AttemptKeepsInv(w, table, outcomes[0], receiverOpen);
      FlushAllKeepsInv(AttemptStep(w, table, outcomes[0], receiverOpen),
                       TableAfter(w, table, outcomes[0]), outcomes[1..], receiverOpen);
    }
  }

  /** A flush of a legal batch that reaches the database appends the batch to the table. */
  lemma FlushAppends(w: Writer, table: seq<PendingEvent>, outcomes: seq<DbOutcome>, receiverOpen: bool)
    requires Inv(w) && w.phase.Flushing? && w.phase.outcomes == [] && |outcomes| == ATTEMPTS
    requires Reached(outcomes) && DistinctKeys(table + w.batch)
    ensures var (w', table') := FlushAll(w, table, outcomes, receiverOpen);
            && table' == table + w.batch
            && Idle(w')
            && w' == w.(batch := [], finished := w'.finished, phase := w'.phase)
            && (AckLost !in outcomes && AllCommitted(w) ==> AllCommitted(w'))
  {
    DistinctAccepts(table, w.batch);
    RetryIsDecidedByFirstReached(table, w.batch, outcomes);
    PoisonWhenUnambiguous(table, w.batch, outcomes);
    var stored, used := FlushAllIsRetry(w, table, outcomes, receiverOpen);
    FlushAllKeepsInv(w, table, outcomes, receiverOpen);
  }

  lemma {:induction false} FlushAllKeepsHistory(
      w: Writer, table: seq<PendingEvent>, outcomes: seq<DbOutcome>, receiverOpen: bool)
    ensures FlushAll(w, table, outcomes, receiverOpen).0.accepted == w.accepted
    decreases |outcomes|
  {
    if !w.phase.Flushing? || outcomes == [] {
    } else {
      FlushAllKeepsHistory(AttemptStep(w, table, outcomes[0], receiverOpen),
                           TableAfter(w, table, outcomes[0]), outcomes[1..], receiverOpen);
    }
  }

  /** Every signal keeps the writer's invariant, so at every point of a run nothing accepted is missing. */
  lemma SignalKeepsInv(w: Writer, table: seq<PendingEvent>, s: Signal)
    requires Inv(w)
    ensures Inv(OnSignal(w, table, s).0)
    ensures w.accepted <= OnSignal(w, table, s).0.accepted
  {
    hide Inv, FlushAll;
    if w.phase.Selecting? {
      match s
      case Sent(e) => SendKeepsInv(w, e);
      case SenderDropped => SendKeepsInv(w, PendingEvent("", "", ""));
      case Recv(outcomes, receiverOpen) =>
        ReceiveKeepsInv(w);
        FlushAllKeepsInv(Receive(w), table, outcomes, receiverOpen);
        FlushAllKeepsHistory(Receive(w), table, outcomes, receiverOpen);
      case Ticked(outcomes, receiverOpen) =>
        ReceiveKeepsInv(w);
        FlushAllKeepsInv(Tick(w), table, outcomes, receiverOpen);
        FlushAllKeepsHistory(Tick(w), table, outcomes, receiverOpen);
    }
  }

  lemma {:induction false} RunKeepsInv(w: Writer, table: seq<PendingEvent>, signals: seq<Signal>)
    requires Inv(w)
    ensures Inv(RunSignals(w, table, signals).0)
    ensures w.accepted <= RunSignals(w, table, signals).0.accepted
    decreases |signals|
  {
    if signals == [] {
    } else {
      SignalKeepsInv(w, table, signals[0]);
      var (w', table') := OnSignal(w, table, signals[0]);
      RunKeepsInv(w', table', signals[1..]);
    }
  }

  /** The simulation: the table, the batch and the channel together are what synchronous insertion has made. */
  predicate Simulates(w: Writer, table: seq<PendingEvent>, initial: seq<PendingEvent>) {
    Idle(w) && table + w.batch + w.chan == initial + w.accepted
  }

  lemma SendSimulates(w: Writer, table: seq<PendingEvent>, initial: seq<PendingEvent>, e: PendingEvent)
    requires Simulates(w, table, initial)
    ensures Simulates(Send(w, e), table, initial)
  {
    SendKeepsInv(w, e);
    assert table + w.batch + (w.chan + [e]) == table + w.batch + w.chan + [e];
    assert initial + (w.accepted + [e]) == initial + w.accepted + [e];
  }

  lemma HeadMoves(table: seq<PendingEvent>, batch: seq<PendingEvent>, chan: seq<PendingEvent>)
    requires chan != []
    ensures table + (batch + [chan[0]]) + chan[1..] == table + batch + chan
  {
  }

  lemma ReceiveMovesOne(w: Writer, table: seq<PendingEvent>, initial: seq<PendingEvent>, v: Writer)
    requires Simulates(w, table, initial) && (v == Receive(w) || v == Tick(w))
    ensures Inv(v) && !v.phase.Crashed? && (v.phase.Flushing? ==> v.phase.outcomes == [])
    ensures table + v.batch + v.chan == initial + v.accepted
    ensures v.accepted == w.accepted && v.finished == w.finished
  {
    ReceiveKeepsInv(w);
    hide Inv;
    if w.chan != [] {
      HeadMoves(table, w.batch, w.chan);
    }
  }

  lemma BranchSimulates(w: Writer, table: seq<PendingEvent>, initial: seq<PendingEvent>,
                        outcomes: seq<DbOutcome>, receiverOpen: bool)
    requires Inv(w) && !w.phase.Crashed? && (w.phase.Flushing? ==> w.phase.outcomes == [])
    requires table + w.batch + w.chan == initial + w.accepted && DistinctKeys(initial + w.accepted)
    requires |outcomes| == ATTEMPTS && Reached(outcomes)
    ensures var (w', table') := FlushAll(w, table, outcomes, receiverOpen);
            Simulates(w', table', initial)
            && (AllCommitted(w) && AckLost !in outcomes ==> AllCommitted(w'))
  {
    if w.phase.Flushing? {
      DistinctPrefix(table + w.batch, initial + w.accepted);
      hide Inv, DistinctKeys, AllCommitted, FlushAll, Reached;
      FlushAppends(w, table, outcomes, receiverOpen);
      assert table + w.batch + [] == table + w.batch;
    } else {
      FlushAllWhenIdle(w, table, outcomes, receiverOpen);
    }
  }

  lemma SignalSimulates(w: Writer, table: seq<PendingEvent>, initial: seq<PendingEvent>, s: Signal)
    requires Simulates(w, table, initial) && DistinctKeys(initial + w.accepted)
    requires ValidSignal(s) && Reaches(s)
    ensures var (w', table') := OnSignal(w, table, s);
            Simulates(w', table', initial)
    ensures AllCommitted(w) && Unambiguous([s]) ==> AllCommitted(OnSignal(w, table, s).0)
  {
    SignalKeepsInv(w, table, s);
    assert [s][0] == s;
    if w.phase.Selecting? {
      match s
      case Sent(e) => SendSimulates(w, table, initial, e);
      case SenderDropped =>
      case Recv(outcomes, receiverOpen) =>
        ReceiveMovesOne(w, table, initial, Receive(w));
        BranchSimulates(Receive(w), table, initial, outcomes, receiverOpen);
      case Ticked(outcomes, receiverOpen) =>
        ReceiveMovesOne(w, table, initial, Tick(w));
        BranchSimulates(Tick(w), table, initial, outcomes, receiverOpen);
    }
  }

  lemma {:induction false} RunSimulates(
      w: Writer, table: seq<PendingEvent>, initial: seq<PendingEvent>, signals: seq<Signal>)
    requires Simulates(w, table, initial) && Schedule(signals)
    requires DistinctKeys(initial + RunSignals(w, table, signals).0.accepted)
    ensures var (w', table') := RunSignals(w, table, signals);
            Simulates(w', table', initial)
            && (AllCommitted(w) && Unambiguous(signals) ==> AllCommitted(w'))
    decreases |signals|
  {
    if signals == [] {
    } else {
      RunKeepsInv(w, table, signals);
      var (w', table') := OnSignal(w, table, signals[0]);
      assert initial + w.accepted <= initial + RunSignals(w, table, signals).0.accepted;
      SignalSimulates(w, table, initial, signals[0]);
      assert forall i :: 0 <= i < |signals| - 1 ==> signals[1..][i] == signals[i + 1];
      assert Unambiguous(signals) ==> Unambiguous([signals[0]]) && Unambiguous(signals[1..]);
      RunSimulates(w', table', initial, signals[1..]);
    }
  }

  /**
   Batching is invisible. Take any batch size, capacity and schedule of sends, receives and ticks, in which
   every flush reaches the database at least once out of four and all keys are distinct and new. Once the
   channel is closed and drained, the table is what synchronous insertion in send order makes, and without
   ambiguous commits every flush was reported committed.
   */
  lemma BatchedEqualsSynchronous(initial: seq<PendingEvent>, maxBatch: nat, capacity: nat, deadLetter: bool,
                                 signals: seq<Signal>)
    requires Schedule(signals)
    requires var w := RunSignals(NewWriter(maxBatch, capacity, deadLetter), initial, signals).0;
             w.phase.Stopped? && DistinctKeys(initial + w.accepted)
    ensures var (w, table) := RunSignals(NewWriter(maxBatch, capacity, deadLetter), initial, signals);
            && table == initial + w.accepted
            && table == InsertIgnore(initial, w.accepted)
            && w.accepted == Flat(w.finished)
            && (Unambiguous(signals) ==> AllCommitted(w))
  {
    var w0 := NewWriter(maxBatch, capacity, deadLetter);
    NewWriterInv(maxBatch, capacity, deadLetter);
    assert initial + [] + [] == initial + w0.accepted;
    RunSimulates(w0, initial, initial, signals);
    var (w, table) := RunSignals(w0, initial, signals);
    assert table + [] + [] == table;
    assert Flat(w.finished) + [] + [] + [] == Flat(w.finished);
    InsertIgnoreGrows(initial, w.accepted);
    if w.accepted != [] {
      DistinctAccepts(initial, w.accepted);
    }
  }

  // ---- duplicates ----

  /** The table as it is when the drained writer has stopped is what INSERT IGNORE, event by event, makes. */
  predicate DrainsAsIgnore(initial: seq<PendingEvent>, w0: Writer, signals: seq<Signal>) {
    var (w, table) := RunSignals(w0, initial, signals);
    w.phase.Stopped? ==> table == InsertIgnore(initial, w.accepted)
  }

  /** README.md line 22 for a writer: whatever keys repeat, only the duplicates are left out. */
  ghost predicate IgnoresDuplicates(maxBatch: nat, capacity: nat) {
    forall initial: seq<PendingEvent>, deadLetter: bool, signals: seq<Signal> ::
      Schedule(signals) ==> DrainsAsIgnore(initial, NewWriter(maxBatch, capacity, deadLetter), signals)
  }

  /** A writer of single rows has made the INSERT IGNORE of every event it took from the channel. */
  predicate SimulatesIgnore(w: Writer, table: seq<PendingEvent>, initial: seq<PendingEvent>) {
    Idle(w) && w.maxBatch <= 1 && table == InsertIgnore(initial, Flat(w.finished))
  }

  /** Flushed alone, an event is inserted or is a duplicate. */
  lemma SingleFlush(w: Writer, table: seq<PendingEvent>, initial: seq<PendingEvent>,
                    outcomes: seq<DbOutcome>, receiverOpen: bool)
    requires Inv(w) && w.phase == Flushing([], false, false) && |w.batch| == 1 && w.maxBatch <= 1
    requires |outcomes| == ATTEMPTS && Reached(outcomes)
    requires table == InsertIgnore(initial, Flat(w.finished))
    ensures var (w', table') := FlushAll(w, table, outcomes, receiverOpen);
            SimulatesIgnore(w', table', initial)
  {
    FlushAllKeepsInv(w, table, outcomes, receiverOpen);
    var stored, used := FlushAllIsRetry(w, table, outcomes, receiverOpen);
    RetryIgnoresDuplicatesIff(table, w.batch, outcomes);
    var (w', table') := FlushAll(w, table, outcomes, receiverOpen);
    FlatAppend(w.finished, w'.finished[|w.finished|]);
    InsertIgnoreConcat(initial, Flat(w.finished), w.batch);
  }

  lemma SignalSimulatesIgnore(w: Writer, table: seq<PendingEvent>, initial: seq<PendingEvent>, s: Signal)
    requires SimulatesIgnore(w, table, initial) && ValidSignal(s) && Reaches(s)
    ensures var (w', table') := OnSignal(w, table, s);
            SimulatesIgnore(w', table', initial)
  {
    SignalKeepsInv(w, table, s);
    if w.phase.Selecting? {
      assert w.batch == [];
      match s
      case Sent(e) =>
      case SenderDropped =>
      case Recv(outcomes, receiverOpen) =>
        ReceiveKeepsInv(w);
        if w.chan != [] {
          SingleFlush(Receive(w), table, initial, outcomes, receiverOpen);
        }
      case Ticked(outcomes, receiverOpen) =>
    }
  }

  lemma {:induction false} RunSimulatesIgnore(
      w: Writer, table: seq<PendingEvent>, initial: seq<PendingEvent>, signals: seq<Signal>)
    requires SimulatesIgnore(w, table, initial) && Schedule(signals)
    ensures var (w', table') := RunSignals(w, table, signals);
            SimulatesIgnore(w', table', initial)
    decreases |signals|
  {
    if signals == [] {
    } else {
      hide SimulatesIgnore, OnSignal;
      var (w', table') := OnSignal(w, table, signals[0]);
      SignalSimulatesIgnore(w, table, initial, signals[0]);
      assert forall i :: 0 <= i < |signals| - 1 ==> signals[1..][i] == signals[i + 1];
      RunSimulatesIgnore(w', table', initial, signals[1..]);
    }
  }

  lemma SingleRowsIgnoreDuplicates(maxBatch: nat, capacity: nat)
    requires maxBatch <= 1
    ensures IgnoresDuplicates(maxBatch, capacity)
  {
    forall initial: seq<PendingEvent>, deadLetter: bool, signals: seq<Signal> | Schedule(signals)
      ensures DrainsAsIgnore(initial, NewWriter(maxBatch, capacity, deadLetter), signals)
    {
      var w0 := NewWriter(maxBatch, capacity, deadLetter);
      NewWriterInv(maxBatch, capacity, deadLetter);
      RunSimulatesIgnore(w0, initial, initial, signals);
      var (w, table) := RunSignals(w0, initial, signals);
      if w.phase.Stopped? {
        assert Flat(w.finished) + [] + [] + [] == Flat(w.finished);
      }
    }
  }

  lemma PairIsLost(w: Writer, outcomes: seq<DbOutcome>)
    requires |outcomes| == ATTEMPTS && w.phase.Flushing? && w.phase.outcomes == []
    requires w.batch == [PendingEvent("a", "1", "x"), PendingEvent("a", "2", "y")]
    ensures var (w', table') := FlushAll(w, [PendingEvent("a", "1", "x")], outcomes, false);
            && table' == [PendingEvent("a", "1", "x")]
            && w' == w.(batch := [], finished := w'.finished, phase := if w.phase.closing then Stopped else Selecting)
  {
    DuplicateBlocksInnocentEvent(outcomes);
    var stored, used := FlushAllIsRetry(w, [PendingEvent("a", "1", "x")], outcomes, false);
  }

  /** A send that is received at once. */
  lemma SendThenReceive(w: Writer, table: seq<PendingEvent>, e: PendingEvent, outcomes: seq<DbOutcome>,
                        rest: seq<Signal>)
    requires HasRoom(w) && w.phase.Selecting? && w.chan == []
    ensures var batch := w.batch + [e];
            var v := w.(batch := batch, accepted := w.accepted + [e],
                        phase := if |batch| >= w.maxBatch then Flushing([], false, false) else Selecting);
            var (w', table') := FlushAll(v, table, outcomes, false);
            RunSignals(w, table, [Sent(e), Recv(outcomes, false)] + rest) == RunSignals(w', table', rest)
  {
    hide FlushAll;
    var signals := [Sent(e), Recv(outcomes, false)] + rest;
    assert signals[1..] == [Recv(outcomes, false)] + rest && signals[1..][1..] == rest;
    assert w.chan + [e] == [e] && [e][1..] == [];
  }

  lemma CloseThenReceive(w: Writer, table: seq<PendingEvent>, outcomes: seq<DbOutcome>)
    requires w.phase.Selecting? && w.chan == []
    ensures var v := w.(open := false, phase := if w.batch == [] then Stopped else Flushing([], false, true));
            RunSignals(w, table, [SenderDropped, Recv(outcomes, false)]) == FlushAll(v, table, outcomes, false)
  {
    hide FlushAll;
    var signals := [SenderDropped, Recv(outcomes, false)];
    assert signals[1..] == [Recv(outcomes, false)] && signals[1..][1..] == [];
    assert OnSignal(w, table, SenderDropped) == (DropSender(w), table);
    var (w', table') := OnSignal(DropSender(w), table, Recv(outcomes, false));
    assert RunSignals(w', table', signals[1..][1..]) == (w', table');
  }

  /** Two sends, each received at once, then the close and a last receive. */
  function TwoSends(stored: PendingEvent, novel: PendingEvent, recv: Signal): seq<Signal> {
    [Sent(stored), recv] + ([Sent(novel), recv] + [SenderDropped, recv])
  }

  /** A writer of batches that takes a duplicate and a new event loses both. */
  lemma PairRun(w: Writer, stored: PendingEvent, novel: PendingEvent, outcomes: seq<DbOutcome>)
    requires w == NewWriter(w.maxBatch, w.capacity, false) && w.maxBatch > 1 && w.capacity > 0
    requires stored == PendingEvent("a", "1", "x") && novel == PendingEvent("a", "2", "y")
    requires |outcomes| == ATTEMPTS
    ensures var (w', table') := RunSignals(w, [stored], TwoSends(stored, novel, Recv(outcomes, false)));
            w'.accepted == [stored, novel] && w'.phase.Stopped? && table' == [stored]
  {
    hide RunSignals, FlushAll;
    var recv := Recv(outcomes, false);
    SendThenReceive(w, [stored], stored, outcomes, [Sent(novel), recv] + [SenderDropped, recv]);
    var w1 := w.(batch := [stored], accepted := [stored]);
    FlushAllWhenIdle(w1, [stored], outcomes, false);
    assert w.batch + [stored] == w.accepted + [stored] == [stored];
    SendThenReceive(w1, [stored], novel, outcomes, [SenderDropped, recv]);
    var w2 := w1.(batch := [stored, novel], accepted := [stored, novel]);
    var w3 := w2.(phase := Flushing([], false, w.maxBatch > 2), open := w.maxBatch == 2);
    PairIsLost(w3, outcomes);
    assert w1.batch + [novel] == w2.batch && w1.accepted + [novel] == w2.accepted;
    if w.maxBatch == 2 {
      var w4 := FlushAll(w3, [stored], outcomes, false).0;
      CloseThenReceive(w4, [stored], outcomes);
      FlushAllWhenIdle(w4.(open := false, phase := Stopped), [stored], outcomes, false);
    } else {
      FlushAllWhenIdle(w2, [stored], outcomes, false);
      CloseThenReceive(w2, [stored], outcomes);
    }
  }

  lemma BatchesLoseInnocentEvents(maxBatch: nat, capacity: nat)
    requires maxBatch > 1 && capacity > 0
    ensures !IgnoresDuplicates(maxBatch, capacity)
  {
    var stored, novel := PendingEvent("a", "1", "x"), PendingEvent("a", "2", "y");
    var outcomes := [Healthy, Healthy, Healthy, Healthy];
    assert !outcomes[0].Down?;
    var signals := TwoSends(stored, novel, Recv(outcomes, false));
    assert Schedule(signals);
    PairRun(NewWriter(maxBatch, capacity, false), stored, novel, outcomes);
    DuplicateBlocksInnocentEvent(outcomes);
    hide RunSignals, TwoSends, InsertIgnore;
    assert !DrainsAsIgnore([stored], NewWriter(maxBatch, capacity, false), signals);
  }

  /** Duplicates are ignored for all schedules exactly when the writer makes no batches. */
  lemma IgnoresDuplicatesIff(maxBatch: nat, capacity: nat)
    requires capacity > 0
    ensures IgnoresDuplicates(maxBatch, capacity) <==> maxBatch <= 1
  {
    if maxBatch <= 1 {
      SingleRowsIgnoreDuplicates(maxBatch, capacity);
    } else {
      BatchesLoseInnocentEvents(maxBatch, capacity);
    }
  }
}
