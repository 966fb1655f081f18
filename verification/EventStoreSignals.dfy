/** The write path's steps seen from one writer, what its control steps leave, and that it can always be drained. */
module EventStoreSignals {
  import opened AgentEvents
  import opened WriterMachine
  import opened EventStore
  import EventStoreTheorems
  import Refinement

  lemma {:induction false} StoreRunConcat(s: Store, a: seq<Action>, b: seq<Action>)
    requires s.writers != []
    ensures Run(s, a).writers != []
    ensures Run(s, a + b) == Run(Run(s, a), b)
    decreases |a|
  {
    hide Step;
    if a == [] {
      assert a + b == b;
    } else {
      assert (a + b)[1..] == a[1..] + b;
      EventStoreTheorems.StepKeepsOrigin(s, a[0]);
      StoreRunConcat(Step(s, a[0]), a[1..], b);
    }
  }

  // ---- a writer that nobody interrupts ----

  function AttemptActions(i: nat, outcomes: seq<DbOutcome>, receiverOpen: bool): seq<Action> {
    if outcomes == [] then []
    else [Attempts(i, outcomes[0], receiverOpen)] + AttemptActions(i, outcomes[1..], receiverOpen)
  }

  /** A round of the select loop, or the send of the next acknowledged event, as steps of the store. */
  function RoundActions(i: nat, signal: Signal): seq<Action>
    requires signal.Recv? || signal.Ticked?
  {
    [if signal.Recv? then Receives(i) else Ticks(i)] + AttemptActions(i, signal.outcomes, signal.receiverOpen)
  }

  /** `t` is `s` but for writer `i` and the table. */
  predicate OnlyWriter(s: Store, t: Store, i: nat, w: Writer, table: seq<PendingEvent>)
    requires i < |s.writers|
  {
    t == s.(writers := s.writers[i := w], table := table, commits := t.commits)
  }

  lemma OnlyWriterTwice(s: Store, t: Store, u: Store, i: nat, w: Writer, table: seq<PendingEvent>)
    requires i < |s.writers| && i < |t.writers|
    requires OnlyWriter(s, t, i, t.writers[i], t.table) && OnlyWriter(t, u, i, w, table)
    ensures OnlyWriter(s, u, i, w, table)
  {
    assert s.writers[i := t.writers[i]][i := w] == s.writers[i := w];
  }

  lemma OneAttempt(s: Store, i: nat, outcome: DbOutcome, receiverOpen: bool)
    requires i < |s.writers|
    ensures OnlyWriter(s, Step(s, Attempts(i, outcome, receiverOpen)), i,
                       AttemptStep(s.writers[i], s.table, outcome, receiverOpen),
                       TableAfter(s.writers[i], s.table, outcome))
  {
  }

  lemma IdleWriterIgnoresAttempts(w: Writer, table: seq<PendingEvent>, outcome: DbOutcome, receiverOpen: bool)
    requires !w.phase.Flushing?
    ensures AttemptStep(w, table, outcome, receiverOpen) == w && TableAfter(w, table, outcome) == table
  {
  }

  lemma {:induction false} AttemptsAreAFlush(s: Store, i: nat, outcomes: seq<DbOutcome>, receiverOpen: bool)
    requires i < |s.writers|
    ensures var (w, table) := FlushAll(s.writers[i], s.table, outcomes, receiverOpen);
            OnlyWriter(s, Run(s, AttemptActions(i, outcomes, receiverOpen)), i, w, table)
    decreases |outcomes|
  {
    if outcomes == [] {
      assert s.writers[i := s.writers[i]] == s.writers;
    } else {
      hide Step, AttemptStep, TableAfter, Inserts;
      var actions := AttemptActions(i, outcomes, receiverOpen);
      var s1 := Step(s, actions[0]);
      assert actions[1..] == AttemptActions(i, outcomes[1..], receiverOpen);
      OneAttempt(s, i, outcomes[0], receiverOpen);
      AttemptsAreAFlush(s1, i, outcomes[1..], receiverOpen);
      var (w, table) := FlushAll(s1.writers[i], s1.table, outcomes[1..], receiverOpen);
      OnlyWriterTwice(s, s1, Run(s1, actions[1..]), i, w, table);
      if !s.writers[i].phase.Flushing? {
        IdleWriterIgnoresAttempts(s.writers[i], s.table, outcomes[0], receiverOpen);
        FlushAllWhenIdle(s.writers[i], s.table, outcomes[1..], receiverOpen);
      }
    }
  }

  /** Uninterrupted, a writer of the store does what the writer machine does on that signal, and nothing else. */
  lemma RoundIsASignal(s: Store, i: nat, signal: Signal)
    requires i < |s.writers| && s.writers[i].phase.Selecting? && (signal.Recv? || signal.Ticked?)
    ensures var (w, table) := OnSignal(s.writers[i], s.table, signal);
            OnlyWriter(s, Run(s, RoundActions(i, signal)), i, w, table)
  {
    hide FlushAll, Receive, Tick, AttemptStep, TableAfter, Inserts;
    var actions := RoundActions(i, signal);
    var s1 := Step(s, actions[0]);
    var tail := AttemptActions(i, signal.outcomes, signal.receiverOpen);
    assert actions[1..] == tail;
    assert Run(s, actions) == Run(s1, tail);
    AttemptsAreAFlush(s1, i, signal.outcomes, signal.receiverOpen);
    var (w, table) := OnSignal(s.writers[i], s.table, signal);
    OnlyWriterTwice(s, s1, Run(s1, tail), i, w, table);
  }

  // ---- what the control steps leave ----

  /**
   `with_dead_letter` and dropping the store wait for the callers in flight. Then the current channel is closed
   and keeps what it holds; after a swap a new writer stands beside it, with dead-letter and an empty channel.
   */
  lemma SwapLeavesOldToDrain(s: Store, maxBatch: nat, capacity: nat)
    requires s.writers != []
    ensures var last := |s.writers| - 1;
            var closed := s.writers[last := s.writers[last].(open := false)];
            var swapped := Step(s, WithDeadLetter(maxBatch, capacity));
            if s.inflight != [] then swapped == s && Step(s, DropStore) == s
            else
              && Step(s, DropStore) == s.(writers := closed)
              && swapped == s.(writers := swapped.writers)
              && |swapped.writers| == |s.writers| + 1
              && closed <= swapped.writers
              && var w := swapped.writers[|s.writers|];
                 && w.maxBatch == maxBatch && w.capacity == capacity && w.deadLetter && w.open
                 && w.phase == Selecting && w.chan == [] && w.batch == []
                 && w.accepted == [] && w.finished == [] && w.discarded == []
  {
  }

  /** A caller that goes away leaves its event refused, and a crash leaves the others as they were. */
  lemma AbandonAndCrash(s: Store, k: nat, i: nat)
    requires k < |s.inflight| && i < |s.writers|
    ensures var s' := Step(s, Abandon(k));
            && s' == s.(inflight := s'.inflight, refused := s.refused + [s.inflight[k]])
            && multiset(s'.inflight) + multiset{s.inflight[k]} == multiset(s.inflight)
    ensures var s' := Step(s, Crashes(i));
            && s' == s.(writers := s.writers[i := s'.writers[i]])
            && (s.writers[i].phase.Selecting? || s.writers[i].phase.Flushing? ==>
                  s'.writers[i].phase.Crashed? && s'.writers[i].discarded == s.writers[i].batch + s.writers[i].chan)
  {
    WithoutOne(s.inflight, k);
  }

  // ---- it can always be drained ----

  /** Only the last writer can still have a sender. */
  ghost predicate OldOnesClosed(s: Store) {
    s.writers != [] && forall i :: 0 <= i < |s.writers| - 1 ==> !s.writers[i].open
  }

  ghost predicate AllClosed(s: Store) {
    s.writers != [] && s.inflight == [] && forall i :: 0 <= i < |s.writers| ==> !s.writers[i].open
  }

  predicate Ended(w: Writer) {
    w.phase.Stopped? || w.phase.Crashed?
  }

  lemma StepKeepsOldClosed(s: Store, a: Action)
    requires OldOnesClosed(s)
    ensures OldOnesClosed(Step(s, a))
  {
  }

  lemma {:induction false} RunKeepsOldClosed(s: Store, actions: seq<Action>)
    requires OldOnesClosed(s)
    ensures OldOnesClosed(Run(s, actions))
    decreases |actions|
  {
    if actions == [] {
    } else {
      hide Step;
      StepKeepsOldClosed(s, actions[0]);
      RunKeepsOldClosed(Step(s, actions[0]), actions[1..]);
    }
  }

  lemma AttemptCounts(w: Writer, table: seq<PendingEvent>, outcome: DbOutcome, receiverOpen: bool)
    requires Inv(w) && w.phase.Flushing?
    ensures |w.phase.outcomes| < ATTEMPTS
    ensures var w' := AttemptStep(w, table, outcome, receiverOpen);
            && Inv(w') && w'.open == w.open && w'.chan == w.chan
            && (w'.phase.Flushing? ==> |w'.phase.outcomes| == |w.phase.outcomes| + 1)
            && (w'.phase.Flushing? || w'.phase.Selecting? || w'.phase.Stopped?)
  {
    AttemptKeepsInv(w, table, outcome, receiverOpen);
    hide FlushOk, Conserved, Flat;
  }

  /** A running flush ends after the attempts it has left, whatever their outcomes. */
  lemma {:induction false} FlushAlwaysEnds(
      w: Writer, table: seq<PendingEvent>, outcomes: seq<DbOutcome>, receiverOpen: bool)
    requires Inv(w) && w.phase.Flushing? && |w.phase.outcomes| + |outcomes| >= ATTEMPTS
    ensures var w' := FlushAll(w, table, outcomes, receiverOpen).0;
            Inv(w') && (w'.phase.Selecting? || w'.phase.Stopped?) && w'.open == w.open && w'.chan == w.chan
    decreases |outcomes|
  {
    AttemptCounts(w, table, outcomes[0], receiverOpen);
    hide Inv, AttemptStep;
    var w1 := AttemptStep(w, table, outcomes[0], receiverOpen);
    var table1 := TableAfter(w, table, outcomes[0]);
    if w1.phase.Flushing? {
      FlushAlwaysEnds(w1, table1, outcomes[1..], receiverOpen);
    } else {
      FlushAllWhenIdle(w1, table1, outcomes[1..], receiverOpen);
    }
  }

  /** What draining writer `i` keeps of the store. */
  ghost predicate DrainsOne(s: Store, t: Store, i: nat)
    requires i < |s.writers|
  {
    && i < |t.writers| && OnlyWriter(s, t, i, t.writers[i], t.table)
    && Inv(t.writers[i]) && !t.writers[i].open
  }

  lemma DrainsOneThenOne(s: Store, t: Store, u: Store, i: nat)
    requires i < |s.writers| && DrainsOne(s, t, i) && DrainsOne(t, u, i)
    ensures DrainsOne(s, u, i)
  {
    OnlyWriterTwice(s, t, u, i, u.writers[i], u.table);
  }

  lemma RoundDrains(s: Store, i: nat, outcomes: seq<DbOutcome>)
    requires i < |s.writers| && |outcomes| == 4
    requires Inv(s.writers[i]) && s.writers[i].phase.Selecting? && !s.writers[i].open
    ensures var t := Run(s, RoundActions(i, Recv(outcomes, false)));
            && DrainsOne(s, t, i)
            && (if s.writers[i].chan == [] then t.writers[i].phase.Stopped? && t.writers[i].chan == []
                else t.writers[i].phase.Selecting? && |t.writers[i].chan| < |s.writers[i].chan|)
  {
    var w, signal := s.writers[i], Recv(outcomes, false);
    RoundIsASignal(s, i, signal);
    Refinement.SignalKeepsInv(w, s.table, signal);
    if w.chan == [] {
      ReceiveOnEmptyChannel(w, s.table, outcomes, false);
    } else {
      ReceiveTakesOldest(w, s.table, outcomes, false);
    }
    hide Inv, OnSignal, RoundActions, OneFlush;
  }

  /** A writer whose channel is closed is brought to its end, whatever the database does to its flushes. */
  lemma {:induction false} DrainWriter(s: Store, i: nat, outcomes: seq<DbOutcome>) returns (actions: seq<Action>)
    requires i < |s.writers| && |outcomes| == 4 && Inv(s.writers[i]) && !s.writers[i].open
    ensures DrainsOne(s, Run(s, actions), i) && Ended(Run(s, actions).writers[i])
    decreases |s.writers[i].chan|, if Ended(s.writers[i]) then 0 else if s.writers[i].phase.Selecting? then 1 else 2
  {
    hide Inv;
    var w := s.writers[i];
    if Ended(w) {
      actions := [];
      assert s.writers[i := w] == s.writers;
    } else {
      var first := if w.phase.Flushing? then AttemptActions(i, outcomes, false)
                   else RoundActions(i, Recv(outcomes, false));
      var s1 := Run(s, first);
      if w.phase.Flushing? {
        AttemptsAreAFlush(s, i, outcomes, false);
        FlushAlwaysEnds(w, s.table, outcomes, false);
      } else {
        RoundDrains(s, i, outcomes);
      }
      var rest := DrainWriter(s1, i, outcomes);
      StoreRunConcat(s, first, rest);
      DrainsOneThenOne(s, s1, Run(s1, rest), i);
      actions := first + rest;
    }
  }

  lemma {:induction false} DrainFirst(s: Store, n: nat, outcomes: seq<DbOutcome>) returns (actions: seq<Action>)
    requires n <= |s.writers| && |outcomes| == 4 && AllClosed(s) && WritersInv(s)
    ensures var t := Run(s, actions);
            && AllClosed(t) && WritersInv(t) && |t.writers| == |s.writers|
            && forall i :: 0 <= i < n ==> Ended(t.writers[i])
  {
    hide Inv, Ended;
    if n == 0 {
      actions := [];
    } else {
      var before := DrainFirst(s, n - 1, outcomes);
      var s1 := Run(s, before);
      var last := DrainWriter(s1, n - 1, outcomes);
      StoreRunConcat(s, before, last);
      actions := before + last;
    }
  }

  lemma {:induction false} AbandonAll(s: Store) returns (actions: seq<Action>)
    requires s.writers != []
    ensures var t := Run(s, actions); t == s.(inflight := [], refused := t.refused)
    decreases |s.inflight|
  {
    if s.inflight == [] {
      actions := [];
    } else {
      var s1 := Step(s, Abandon(0));
      var rest := AbandonAll(s1);
      actions := [Abandon(0)] + rest;
      assert actions[1..] == rest;
    }
  }

  /** The callers go away and the store is dropped. */
  lemma CloseAll(s: Store) returns (actions: seq<Action>)
    requires OldOnesClosed(s) && WritersInv(s)
    ensures var t := Run(s, actions); AllClosed(t) && WritersInv(t) && |t.writers| == |s.writers|
  {
    var abandon := AbandonAll(s);
    var s1 := Run(s, abandon);
    StepKeepsWriters(s1, DropStore);
    StoreRunConcat(s, abandon, [DropStore]);
    actions := abandon + [DropStore];
    hide Inv;
    assert Run(s1, [DropStore]) == Step(s1, DropStore) by { assert [DropStore][1..] == []; }
  }

  lemma ReachableIsSound(rows: seq<PendingEvent>, maxBatch: nat, capacity: nat, before: seq<Action>)
    ensures var s := Run(Init(rows, maxBatch, capacity), before); OldOnesClosed(s) && WritersInv(s)
  {
    EventStoreTheorems.InitInv(rows, maxBatch, capacity);
    EventStoreTheorems.RunKeepsInv(Init(rows, maxBatch, capacity), before);
    RunKeepsOldClosed(Init(rows, maxBatch, capacity), before);
  }

  /**
   The pipeline never gets stuck. From every reachable state, whatever the database then does to every flush, the
   callers can go away, the store be dropped, and each writer ever started come to its end.
   */
  lemma EveryStateCanBeDrained(rows: seq<PendingEvent>, maxBatch: nat, capacity: nat, before: seq<Action>,
                               outcomes: seq<DbOutcome>)
    returns (actions: seq<Action>)
    requires |outcomes| == 4
    ensures var s := Run(Init(rows, maxBatch, capacity), before);
            && s.writers != []
            && var t := Run(s, actions);
               && t.inflight == [] && |t.writers| == |s.writers|
               && forall i :: 0 <= i < |t.writers| ==> Ended(t.writers[i])
  {
    hide Run, Step, Ended, Inv;
    ReachableIsSound(rows, maxBatch, capacity, before);
    var s := Run(Init(rows, maxBatch, capacity), before);
    var close := CloseAll(s);
    var s1 := Run(s, close);
    var drain := DrainFirst(s1, |s1.writers|, outcomes);
    StoreRunConcat(s, close, drain);
    actions := close + drain;
  }
}
