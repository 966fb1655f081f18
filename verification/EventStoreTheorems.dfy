/** What holds in every reachable state of the write path. */
module EventStoreTheorems {
  import opened AgentEvents
  import opened WriterMachine
  import opened EventStore
  import Refinement

  ghost predicate StoreInv(s: Store) {
    WritersInv(s) && LogInv(s) && TableInv(s)
  }

  lemma InitInv(rows: seq<PendingEvent>, maxBatch: nat, capacity: nat)
    ensures StoreInv(Init(rows, maxBatch, capacity))
  {
    var s := Init(rows, maxBatch, capacity);
    NewWriterInv(maxBatch, capacity, false);
    forall e ensures Taken(s.writers, e) == 0 {
      assert TakenByFirst(s.writers, 1, e) == TakenByFirst(s.writers, 0, e) + 0;
    }
    assert s.initial + Rows(s.commits) == s.initial;
  }

  lemma StepKeepsInv(s: Store, a: Action)
    requires s.writers != [] && StoreInv(s)
    ensures StoreInv(Step(s, a))
  {
    hide Step, WritersInv, LogInv, TableInv;
    StepKeepsWriters(s, a);
    StepKeepsLog(s, a);
    StepKeepsTable(s, a);
  }

  lemma StepKeepsOrigin(s: Store, a: Action)
    requires s.writers != []
    ensures Step(s, a).initial == s.initial && s.wal <= Step(s, a).wal && Step(s, a).writers != []
  {
  }

  lemma {:induction false} RunKeepsInv(s: Store, actions: seq<Action>)
    requires s.writers != [] && StoreInv(s)
    ensures StoreInv(Run(s, actions))
    ensures Run(s, actions).initial == s.initial
    decreases |actions|
  {
    hide Step, StoreInv;
    if actions == [] {
    } else {
      StepKeepsInv(s, actions[0]);
      StepKeepsOrigin(s, actions[0]);
      RunKeepsInv(Step(s, actions[0]), actions[1..]);
    }
  }

  /**
   Conservation. At every point of every run, each writer's channel history is its finished flushes, what a
   crash discarded, its batch and its channel, in order and once each. Between rounds the batch is below its
   bound; a crash discards at most a channel and a batch; a writer that stopped has discarded nothing.
   */
  lemma Conservation(rows: seq<PendingEvent>, maxBatch: nat, capacity: nat, actions: seq<Action>, i: nat)
    requires i < |Run(Init(rows, maxBatch, capacity), actions).writers|
    ensures var w := Run(Init(rows, maxBatch, capacity), actions).writers[i];
            && w.accepted == Flat(w.finished) + w.discarded + w.batch + w.chan
            && |w.chan| <= w.capacity
            && |w.batch| <= BatchBound(w)
            && (w.phase.Selecting? ==> |w.batch| < BatchBound(w))
            && |w.discarded| <= w.capacity + BatchBound(w)
            && (w.phase.Stopped? ==> w.accepted == Flat(w.finished))
            && (forall f :: 0 <= f < |w.finished| ==> FlushOk(BatchBound(w), w.deadLetter, w.finished[f]))
  {
    InitInv(rows, maxBatch, capacity);
    RunKeepsInv(Init(rows, maxBatch, capacity), actions);
    var w := Run(Init(rows, maxBatch, capacity), actions).writers[i];
    if w.phase.Stopped? {
      assert Flat(w.finished) + [] + [] + [] == Flat(w.finished);
    }
  }

  lemma StepKeepsConfig(s: Store, a: Action, i: nat)
    requires i < |s.writers|
    ensures |s.writers| <= |Step(s, a).writers|
    ensures Step(s, a).writers[i].maxBatch == s.writers[i].maxBatch
  {
  }

  lemma {:induction false} RunKeepsConfig(s: Store, actions: seq<Action>, i: nat)
    requires i < |s.writers|
    ensures |s.writers| <= |Run(s, actions).writers|
    ensures Run(s, actions).writers[i].maxBatch == s.writers[i].maxBatch
    decreases |actions|
  {
    hide Step;
    if actions == [] {
    } else {
      StepKeepsConfig(s, actions[0], i);
      RunKeepsConfig(Step(s, actions[0]), actions[1..], i);
    }
  }

  /** No INSERT of the first writer has more rows than its clamped batch size, in any run, swaps included. */
  lemma FirstWriterKeepsItsCap(rows: seq<PendingEvent>, maxBatch: nat, capacity: nat, actions: seq<Action>, f: nat)
    requires Run(Init(rows, maxBatch, capacity), actions).writers != []
    requires f < |Run(Init(rows, maxBatch, capacity), actions).writers[0].finished|
    ensures |Run(Init(rows, maxBatch, capacity), actions).writers[0].finished[f].events|
            <= (if maxBatch == 0 then 1 else maxBatch)
  {
    RunKeepsConfig(Init(rows, maxBatch, capacity), actions, 0);
    Conservation(rows, maxBatch, capacity, actions, 0);
  }

  /** The table is the rows it began with and then whole batches, each writer's own in the order it took them. */
  lemma TableIsWholeBatches(rows: seq<PendingEvent>, maxBatch: nat, capacity: nat, actions: seq<Action>)
    requires DistinctKeys(rows)
    ensures var s := Run(Init(rows, maxBatch, capacity), actions);
            && s.table == rows + Rows(s.commits)
            && DistinctKeys(s.table)
            && forall i :: 0 <= i < |s.writers| ==> CommitsOf(s.commits, i) == Stored(s.writers[i])
  {
    InitInv(rows, maxBatch, capacity);
    RunKeepsInv(Init(rows, maxBatch, capacity), actions);
  }

  // ---- counting rows against what the channels took ----

  function Concat(batches: seq<seq<PendingEvent>>): seq<PendingEvent> {
    if batches == [] then [] else Concat(batches[..|batches| - 1]) + batches[|batches| - 1]
  }

  lemma ConcatAppend(batches: seq<seq<PendingEvent>>, b: seq<PendingEvent>)
    ensures Concat(batches + [b]) == Concat(batches) + b
  {
  }

  lemma {:induction false} TakenContains(ws: seq<Writer>, n: nat, i: nat, e: PendingEvent)
    requires i < n <= |ws|
    ensures multiset(ws[i].accepted)[e] <= TakenByFirst(ws, n, e)
  {
    if i == n - 1 {
    } else {
      TakenContains(ws, n - 1, i, e);
    }
  }

  /** How often an event is in the batches of the first `n` writers. */
  function RowsOfFirst(commits: seq<Commit>, n: nat, e: PendingEvent): nat {
    if n == 0 then 0
    else RowsOfFirst(commits, n - 1, e) + multiset(Concat(CommitsOf(commits, n - 1)))[e]
  }

  lemma {:induction false} RowsOfFirstAppend(commits: seq<Commit>, c: Commit, n: nat, e: PendingEvent)
    ensures RowsOfFirst(commits + [c], n, e)
            == RowsOfFirst(commits, n, e) + (if c.writer < n then multiset(c.rows)[e] else 0)
  {
    hide CommitsOf, Concat;
    if n == 0 {
    } else {
      var batches := CommitsOf(commits, n - 1);
      RowsOfFirstAppend(commits, c, n - 1, e);
      CommitsOfAppend(commits, c, n - 1);
      if c.writer == n - 1 {
        ConcatAppend(batches, c.rows);
      } else {
        assert batches + [] == batches;
      }
    }
  }

  lemma {:induction false} NoRows(n: nat, e: PendingEvent)
    ensures RowsOfFirst([], n, e) == 0
  {
    if n == 0 {
    } else {
      NoRows(n - 1, e);
    }
  }

  lemma {:induction false} RowsByWriter(commits: seq<Commit>, n: nat, e: PendingEvent)
    requires forall c :: 0 <= c < |commits| ==> commits[c].writer < n
    ensures multiset(Rows(commits))[e] == RowsOfFirst(commits, n, e)
  {
    if commits == [] {
      NoRows(n, e);
    } else {
      var rest := commits[..|commits| - 1];
      var c := commits[|commits| - 1];
      assert commits == rest + [c];
      RowsByWriter(rest, n, e);
      RowsOfFirstAppend(rest, c, n, e);
    }
  }

  lemma {:induction false} StoredFlushesWithin(finished: seq<Flush>, e: PendingEvent)
    ensures multiset(Concat(StoredOf(finished)))[e] <= multiset(Flat(finished))[e]
  {
    if finished == [] {
    } else {
      var rest, f := finished[..|finished| - 1], finished[|finished| - 1];
      StoredFlushesWithin(rest, e);
      ConcatAppend(StoredOf(rest), f.events);
      assert StoredOf(rest) + [] == StoredOf(rest);
    }
  }

  /** The batch of a flush that has stored nothing so far. */
  function Pending(w: Writer): seq<PendingEvent> {
    if w.phase.Flushing? && !w.phase.stored then w.batch else []
  }

  /** Among `rows` and its pending batch, the writer holds no event more often than its channel took it. */
  predicate OnlyAccepted(rows: seq<seq<PendingEvent>>, w: Writer, e: PendingEvent) {
    multiset(Concat(rows))[e] + multiset(Pending(w))[e] <= multiset(w.accepted)[e]
  }

  lemma InterruptedWasAccepted(w: Writer, e: PendingEvent)
    requires Inv(w) && w.phase.Crashed?
    ensures multiset(w.phase.interrupted)[e] <= multiset(w.discarded)[e]
  {
    var kept := |w.phase.interrupted|;
    assert w.discarded == w.discarded[..kept] + w.discarded[kept..];
    assert w.phase.interrupted == w.discarded[..kept];
  }

  lemma StoredWithinAccepted(w: Writer, e: PendingEvent)
    requires Inv(w)
    ensures OnlyAccepted(Stored(w), w, e)
  {
    hide FlushOk, Bounded, Flat, StoredOf;
    var done := StoredOf(w.finished);
    StoredFlushesWithin(w.finished, e);
    assert done + [] == done;
    if w.phase.Flushing? {
      ConcatAppend(done, w.batch);
    } else if w.phase.Crashed? {
      ConcatAppend(done, w.phase.interrupted);
      InterruptedWasAccepted(w, e);
    }
  }

  /** Committed rows of the first `n` writers, and a batch about to be inserted, are all taken events. */
  lemma {:induction false} RowsOfFirstWithin(commits: seq<Commit>, ws: seq<Writer>, n: nat, i: nat, e: PendingEvent)
    requires n <= |ws|
    requires forall k :: 0 <= k < n ==> OnlyAccepted(CommitsOf(commits, k), ws[k], e)
    ensures RowsOfFirst(commits, n, e) + (if i < n then multiset(Pending(ws[i]))[e] else 0) <= TakenByFirst(ws, n, e)
  {
    hide CommitsOf, Concat, Pending;
    if n == 0 {
    } else {
      RowsOfFirstWithin(commits, ws, n - 1, i, e);
      assert OnlyAccepted(CommitsOf(commits, n - 1), ws[n - 1], e);
    }
  }

  lemma RowsWithinTaken(s: Store, i: nat, e: PendingEvent)
    requires WritersInv(s) && TableInv(s) && i < |s.writers|
    ensures multiset(s.table)[e] + multiset(Pending(s.writers[i]))[e]
            <= multiset(s.initial)[e] + Taken(s.writers, e)
  {
    forall k | 0 <= k < |s.writers| ensures OnlyAccepted(CommitsOf(s.commits, k), s.writers[k], e) {
      StoredWithinAccepted(s.writers[k], e);
    }
    RowsByWriter(s.commits, |s.writers|, e);
    RowsOfFirstWithin(s.commits, s.writers, |s.writers|, i, e);
  }

  /**
   The log comes first: everything published is in flight, refused, or was taken by exactly one channel, so
   whatever a channel, a batch, a flush or the table holds has its own message in the log.
   */
  lemma LogAccountsForEverything(rows: seq<PendingEvent>, maxBatch: nat, capacity: nat, actions: seq<Action>,
                                 i: nat, e: PendingEvent)
    requires i < |Run(Init(rows, maxBatch, capacity), actions).writers|
    ensures var s := Run(Init(rows, maxBatch, capacity), actions);
            var w := s.writers[i];
            && multiset(s.wal)[e] == multiset(s.inflight)[e] + multiset(s.refused)[e] + Taken(s.writers, e)
            && multiset(Flat(w.finished))[e] + multiset(w.discarded)[e] + multiset(w.batch)[e]
               + multiset(w.chan)[e] <= multiset(s.wal)[e]
            && multiset(s.table)[e] <= multiset(rows)[e] + multiset(s.wal)[e]
  {
    InitInv(rows, maxBatch, capacity);
    RunKeepsInv(Init(rows, maxBatch, capacity), actions);
    var s := Run(Init(rows, maxBatch, capacity), actions);
    TakenContains(s.writers, |s.writers|, i, e);
    RowsWithinTaken(s, i, e);
  }

  // ---- distinct keys: a batch is stored exactly when an attempt reached the database ----

  lemma TwoPositions(s: seq<PendingEvent>, e: PendingEvent) returns (i: nat, j: nat)
    requires multiset(s)[e] >= 2
    ensures i < j < |s| && s[i] == e && s[j] == e
  {
    assert e in s;
    i :| 0 <= i < |s| && s[i] == e;
    WithoutOne(s, i);
    var rest := Without(s, i);
    assert e in rest;
    var k :| 0 <= k < |rest| && rest[k] == e;
    j := if k < i then k else k + 1;
    if j < i {
      i, j := j, i;
    }
  }

  lemma DistinctSubmultiset(a: seq<PendingEvent>, b: seq<PendingEvent>)
    requires DistinctKeys(b)
    requires forall e :: multiset(a)[e] <= multiset(b)[e]
    ensures DistinctKeys(a)
  {
    forall i, j | 0 <= i < j < |a| ensures KeyOf(a[i]) != KeyOf(a[j]) {
      if a[i] == a[j] {
        WithoutOne(a, i);
        assert Without(a, i)[j - 1] == a[j];
        assert a[j] in multiset(Without(a, i));
        var p, q := TwoPositions(b, a[i]);
        assert false;
      } else {
        assert a[i] in multiset(a) && a[j] in multiset(a);
        assert a[i] in b && a[j] in b;
      }
    }
  }

  ghost predicate StoredIffReached(w: Writer) {
    && (forall f :: 0 <= f < |w.finished| ==> (w.finished[f].stored <==> Reached(w.finished[f].outcomes)))
    && (w.phase.Flushing? ==> (w.phase.stored <==> Reached(w.phase.outcomes)))
  }

  ghost predicate AllStoredIffReached(s: Store) {
    forall i :: 0 <= i < |s.writers| ==> StoredIffReached(s.writers[i])
  }

  lemma ReachedAppend(outcomes: seq<DbOutcome>, o: DbOutcome)
    ensures Reached(outcomes + [o]) <==> Reached(outcomes) || !o.Down?
  {
    assert (outcomes + [o])[|outcomes|] == o;
    if Reached(outcomes) {
      var k :| 0 <= k < |outcomes| && !outcomes[k].Down?;
      assert (outcomes + [o])[k] == outcomes[k];
    }
  }

  /** With all keys distinct, a batch still to be stored is legal, whatever the other writers have inserted. */
  lemma PendingIsLegal(s: Store, i: nat)
    requires StoreInv(s) && i < |s.writers|
    requires DistinctKeys(s.initial + s.wal)
    requires s.writers[i].phase.Flushing? && !s.writers[i].phase.stored
    ensures Accepts(s.table, s.writers[i].batch)
  {
    var batch := s.writers[i].batch;
    forall e ensures multiset(s.table + batch)[e] <= multiset(s.initial + s.wal)[e] {
      RowsWithinTaken(s, i, e);
    }
    DistinctSubmultiset(s.table + batch, s.initial + s.wal);
    Refinement.DistinctAccepts(s.table, batch);
  }

  lemma AttemptKeepsReached(w: Writer, table: seq<PendingEvent>, outcome: DbOutcome, receiverOpen: bool)
    requires StoredIffReached(w)
    requires w.phase.Flushing? && !w.phase.stored ==> Accepts(table, w.batch)
    ensures StoredIffReached(AttemptStep(w, table, outcome, receiverOpen))
  {
    if w.phase.Flushing? {
      ReachedAppend(w.phase.outcomes, outcome);
    }
  }

  lemma QuietStepKeepsReached(w: Writer, e: PendingEvent, v: Writer)
    requires StoredIffReached(w)
    requires v == Send(w, e) || v == DropSender(w) || v == Receive(w) || v == Tick(w) || v == Crash(w)
    ensures StoredIffReached(v)
  {
  }

  lemma NewWriterReached(maxBatch: nat, capacity: nat)
    ensures StoredIffReached(NewWriter(maxBatch, capacity, true))
  {
  }

  lemma StepKeepsReached(s: Store, a: Action)
    requires s.writers != [] && StoreInv(s) && AllStoredIffReached(s)
    requires DistinctKeys(s.initial + s.wal)
    ensures AllStoredIffReached(Step(s, a))
  {
    hide StoredIffReached, StoreInv, Send, DropSender, Receive, Tick, AttemptStep, Crash;
    var last := s.writers[|s.writers| - 1];
    var none := PendingEvent("", "", "");
    match a
    case Publish(e) =>
    case PublishUnacked(e) =>
    case Enqueue(k) =>
      if k < |s.inflight| { QuietStepKeepsReached(last, s.inflight[k], Send(last, s.inflight[k])); }
    case Abandon(k) =>
    case WithDeadLetter(maxBatch, capacity) =>
      QuietStepKeepsReached(last, none, DropSender(last));
      NewWriterReached(maxBatch, capacity);
    case DropStore => QuietStepKeepsReached(last, none, DropSender(last));
    case Receives(w) =>
      if w < |s.writers| { QuietStepKeepsReached(s.writers[w], none, Receive(s.writers[w])); }
    case Ticks(w) =>
      if w < |s.writers| { QuietStepKeepsReached(s.writers[w], none, Tick(s.writers[w])); }
    case Attempts(w, outcome, receiverOpen) =>
      if w < |s.writers| {
        if s.writers[w].phase.Flushing? && !s.writers[w].phase.stored {
          PendingIsLegal(s, w);
        }
        AttemptKeepsReached(s.writers[w], s.table, outcome, receiverOpen);
      }
    case Crashes(w) =>
      if w < |s.writers| { QuietStepKeepsReached(s.writers[w], none, Crash(s.writers[w])); }
  }

  lemma {:induction false} LogGrows(s: Store, actions: seq<Action>)
    requires s.writers != []
    ensures s.wal <= Run(s, actions).wal
    decreases |actions|
  {
    hide Step;
    if actions == [] {
    } else {
      StepKeepsOrigin(s, actions[0]);
      LogGrows(Step(s, actions[0]), actions[1..]);
    }
  }

  lemma {:induction false} RunKeepsReached(s: Store, actions: seq<Action>)
    requires s.writers != [] && StoreInv(s) && AllStoredIffReached(s)
    requires DistinctKeys(s.initial + Run(s, actions).wal)
    ensures AllStoredIffReached(Run(s, actions))
    decreases |actions|
  {
    hide Step, StoreInv, AllStoredIffReached;
    if actions == [] {
    } else {
      LogGrows(s, actions);
      Refinement.DistinctPrefix(s.initial + s.wal, s.initial + Run(s, actions).wal);
      StepKeepsReached(s, actions[0]);
      StepKeepsInv(s, actions[0]);
      StepKeepsOrigin(s, actions[0]);
      RunKeepsReached(Step(s, actions[0]), actions[1..]);
    }
  }

  /**
   If every logged event has a new key of its own, then in every reachable state a flush of any writer is
   stored exactly when one of its attempts reached the database, whatever runs beside it.
   */
  lemma DistinctKeysNeverPoison(rows: seq<PendingEvent>, maxBatch: nat, capacity: nat, actions: seq<Action>,
                                i: nat, f: nat)
    requires DistinctKeys(rows + Run(Init(rows, maxBatch, capacity), actions).wal)
    requires i < |Run(Init(rows, maxBatch, capacity), actions).writers|
    requires f < |Run(Init(rows, maxBatch, capacity), actions).writers[i].finished|
    ensures var flush := Run(Init(rows, maxBatch, capacity), actions).writers[i].finished[f];
            flush.stored <==> Reached(flush.outcomes)
  {
    InitInv(rows, maxBatch, capacity);
    RunKeepsReached(Init(rows, maxBatch, capacity), actions);
  }

  // ---- the drained pipeline is synchronous insertion, senders and faults running beside it ----

  ghost predicate AllReached(w: Writer) {
    forall f :: 0 <= f < |w.finished| ==> Reached(w.finished[f].outcomes)
  }

  lemma {:induction false} AllStoredFlat(finished: seq<Flush>)
    requires forall f :: 0 <= f < |finished| ==> finished[f].stored
    ensures Concat(StoredOf(finished)) == Flat(finished)
  {
    if finished == [] {
    } else {
      AllStoredFlat(finished[..|finished| - 1]);
      ConcatAppend(StoredOf(finished[..|finished| - 1]), finished[|finished| - 1].events);
    }
  }

  lemma {:induction false} OneWriterRows(commits: seq<Commit>)
    requires forall c :: 0 <= c < |commits| ==> commits[c].writer == 0
    ensures Rows(commits) == Concat(CommitsOf(commits, 0))
  {
    if commits == [] {
    } else {
      var rest, c := commits[..|commits| - 1], commits[|commits| - 1];
      OneWriterRows(rest);
      ConcatAppend(CommitsOf(rest, 0), c.rows);
    }
  }

  lemma StoppedWriterStoredAll(w: Writer)
    requires Inv(w) && w.phase.Stopped? && StoredIffReached(w) && AllReached(w)
    ensures Concat(Stored(w)) == w.accepted
  {
    AllStoredFlat(w.finished);
    assert StoredOf(w.finished) + [] == StoredOf(w.finished);
    assert Flat(w.finished) + [] + [] + [] == Flat(w.finished);
  }

  /**
   Refinement over all interleavings: one writer, any callers, and a table that ends up exactly as if each
   event had been inserted when its channel took it.
   */
  lemma DrainedStoreIsSynchronous(rows: seq<PendingEvent>, maxBatch: nat, capacity: nat, actions: seq<Action>)
    requires var s := Run(Init(rows, maxBatch, capacity), actions);
             && DistinctKeys(rows + s.wal)
             && |s.writers| == 1 && s.writers[0].phase.Stopped? && AllReached(s.writers[0])
    ensures var s := Run(Init(rows, maxBatch, capacity), actions);
            s.table == rows + s.writers[0].accepted
  {
    var s := Run(Init(rows, maxBatch, capacity), actions);
    InitInv(rows, maxBatch, capacity);
    RunKeepsInv(Init(rows, maxBatch, capacity), actions);
    RunKeepsReached(Init(rows, maxBatch, capacity), actions);
    assert StoredIffReached(s.writers[0]);
    StoppedWriterStoredAll(s.writers[0]);
    OneWriterRows(s.commits);
  }

  lemma {:induction false} EveryTakenIsARow(commits: seq<Commit>, ws: seq<Writer>, n: nat, e: PendingEvent)
    requires n <= |ws|
    requires forall k :: 0 <= k < n ==> Concat(CommitsOf(commits, k)) == ws[k].accepted
    ensures RowsOfFirst(commits, n, e) == TakenByFirst(ws, n, e)
  {
    hide CommitsOf, Concat;
    if n == 0 {
    } else {
      EveryTakenIsARow(commits, ws, n - 1, e);
    }
  }

  /**
   With any number of writers, old ones draining after a swap included, no row is missing and none is extra, and
   each writer's rows are in the order its channel took them.
   */
  lemma DrainedStoresHoldEverything(rows: seq<PendingEvent>, maxBatch: nat, capacity: nat, actions: seq<Action>,
                                    e: PendingEvent)
    requires var s := Run(Init(rows, maxBatch, capacity), actions);
             && DistinctKeys(rows + s.wal)
             && forall i :: 0 <= i < |s.writers| ==> s.writers[i].phase.Stopped? && AllReached(s.writers[i])
    ensures var s := Run(Init(rows, maxBatch, capacity), actions);
            && multiset(s.table)[e] == multiset(rows)[e] + Taken(s.writers, e)
            && forall k :: 0 <= k < |s.writers| ==> Concat(CommitsOf(s.commits, k)) == s.writers[k].accepted
  {
    var s := Run(Init(rows, maxBatch, capacity), actions);
    InitInv(rows, maxBatch, capacity);
    RunKeepsInv(Init(rows, maxBatch, capacity), actions);
    RunKeepsReached(Init(rows, maxBatch, capacity), actions);
    RowsByWriter(s.commits, |s.writers|, e);
    forall k: nat | k < |s.writers| ensures Concat(CommitsOf(s.commits, k)) == s.writers[k].accepted {
      StoppedWriterStoredAll(s.writers[k]);
    }
    EveryTakenIsARow(s.commits, s.writers, |s.writers|, e);
  }
}
