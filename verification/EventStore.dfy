/**
 The whole write path as a machine: callers of `save_event`, the write-ahead log, one writer for each
 channel ever made, and the shared table. Every interleaving of single steps is a run.
 */
module EventStore {
  import opened AgentEvents
  import opened WriterMachine

  /** One multi-row INSERT that was committed, and the writer it came from. */
  datatype Commit = Commit(writer: nat, rows: seq<PendingEvent>)

  datatype Store = Store(
    initial: seq<PendingEvent>,   // rows the table had at the start
    table: seq<PendingEvent>,
    commits: seq<Commit>,         // history: the committed transactions, in order
    wal: seq<PendingEvent>,       // the stream, in sequence order
    inflight: seq<PendingEvent>,  // published and acknowledged, not yet enqueued
    refused: seq<PendingEvent>,   // published, and never enqueued
    writers: seq<Writer>)         // the last one owns the current channel

  datatype Action =
    | Publish(e: PendingEvent)            // the publish is acknowledged
    | PublishUnacked(e: PendingEvent)     // stored by the stream, but save_event returns an error
    | Enqueue(k: nat)                     // the send of an acknowledged event
    | Abandon(k: nat)                     // the caller goes away between publish and send
    | WithDeadLetter(maxBatch: nat, capacity: nat)
    | DropStore
    | Receives(w: nat)
    | Ticks(w: nat)
    | Attempts(w: nat, outcome: DbOutcome, receiverOpen: bool)
    | Crashes(w: nat)

  function Init(rows: seq<PendingEvent>, maxBatch: nat, capacity: nat): Store {
    Store(rows, rows, [], [], [], [], [NewWriter(maxBatch, capacity, false)])
  }

  function Without(s: seq<PendingEvent>, k: nat): seq<PendingEvent>
    requires k < |s|
  {
    s[..k] + s[k + 1..]
  }

  function Step(s: Store, a: Action): Store
    requires s.writers != []
  {
    var last := |s.writers| - 1;
    match a
    case Publish(e) =>
      s.(wal := s.wal + [e], inflight := s.inflight + [e])
    case PublishUnacked(e) =>
      s.(wal := s.wal + [e], refused := s.refused + [e])
    case Enqueue(k) =>
      if k >= |s.inflight| then s
      else if HasRoom(s.writers[last]) then
        s.(inflight := Without(s.inflight, k),
           writers := s.writers[last := Send(s.writers[last], s.inflight[k])])
      else if !Receiving(s.writers[last]) then
        // the receiver is gone: QueueClosed
        s.(inflight := Without(s.inflight, k), refused := s.refused + [s.inflight[k]])
      else s
    case Abandon(k) =>
      if k >= |s.inflight| then s
      else s.(inflight := Without(s.inflight, k), refused := s.refused + [s.inflight[k]])
    case WithDeadLetter(maxBatch, capacity) =>
      // takes the store by value, so no save_event is in flight
      if s.inflight != [] then s
      else s.(writers := s.writers[last := DropSender(s.writers[last])] + [NewWriter(maxBatch, capacity, true)])
    case DropStore =>
      if s.inflight != [] then s
      else s.(writers := s.writers[last := DropSender(s.writers[last])])
    case Receives(w) =>
      if w > last then s else s.(writers := s.writers[w := Receive(s.writers[w])])
    case Ticks(w) =>
      if w > last then s else s.(writers := s.writers[w := Tick(s.writers[w])])
    case Attempts(w, outcome, receiverOpen) =>
      if w > last then s
      else
        s.(table := TableAfter(s.writers[w], s.table, outcome),
           commits := s.commits + (if Inserts(s.writers[w], s.table, outcome)
                                   then [Commit(w, s.writers[w].batch)] else []),
           writers := s.writers[w := AttemptStep(s.writers[w], s.table, outcome, receiverOpen)])
    case Crashes(w) =>
      if w > last then s else s.(writers := s.writers[w := Crash(s.writers[w])])
  }

  function Run(s: Store, actions: seq<Action>): Store
    requires s.writers != []
    decreases |actions|
  {
    if actions == [] then s else Run(Step(s, actions[0]), actions[1..])
  }

  // ---- conservation in every writer ----

  ghost predicate WritersInv(s: Store) {
    && s.writers != []
    && forall i :: 0 <= i < |s.writers| ==> Inv(s.writers[i])
  }

  lemma StepKeepsWriters(s: Store, a: Action)
    requires WritersInv(s)
    ensures WritersInv(Step(s, a))
  {
    hide Inv, Send, DropSender, NewWriter, Receive, Tick, AttemptStep, Crash;
    var last := |s.writers| - 1;
    match a
    case Enqueue(k) =>
      if k < |s.inflight| {
        SendKeepsInv(s.writers[last], s.inflight[k]);
      }
    case WithDeadLetter(maxBatch, capacity) =>
      SendKeepsInv(s.writers[last], PendingEvent("", "", ""));
      NewWriterInv(maxBatch, capacity, true);
    case DropStore => SendKeepsInv(s.writers[last], PendingEvent("", "", ""));
    case Receives(w) => if w <= last { ReceiveKeepsInv(s.writers[w]); }
    case Ticks(w) => if w <= last { ReceiveKeepsInv(s.writers[w]); }
    case Attempts(w, outcome, receiverOpen) =>
      if w <= last { AttemptKeepsInv(s.writers[w], s.table, outcome, receiverOpen); }
    case Crashes(w) => if w <= last { CrashKeepsInv(s.writers[w]); }
    case _ =>
  }

  // ---- the log comes first ----

  /** How often the channels of the first `n` writers took an event. */
  function TakenByFirst(ws: seq<Writer>, n: nat, e: PendingEvent): nat
    requires n <= |ws|
  {
    if n == 0 then 0 else TakenByFirst(ws, n - 1, e) + multiset(ws[n - 1].accepted)[e]
  }

  function Taken(ws: seq<Writer>, e: PendingEvent): nat {
    TakenByFirst(ws, |ws|, e)
  }

  lemma {:induction false} TakenUpdate(ws: seq<Writer>, n: nat, i: nat, w: Writer, e: PendingEvent)
    requires n <= |ws| && i < |ws|
    ensures TakenByFirst(ws[i := w], n, e) + (if i < n then multiset(ws[i].accepted)[e] else 0)
            == TakenByFirst(ws, n, e) + (if i < n then multiset(w.accepted)[e] else 0)
  {
    if n == 0 {
    } else {
      TakenUpdate(ws, n - 1, i, w, e);
    }
  }

  lemma {:induction false} TakenAppend(ws: seq<Writer>, n: nat, w: Writer, e: PendingEvent)
    requires n <= |ws|
    ensures TakenByFirst(ws + [w], n, e) == TakenByFirst(ws, n, e)
  {
    if n == 0 {
    } else {
      TakenAppend(ws, n - 1, w, e);
    }
  }

  /** Each message of the log is accounted for once: on its way, refused, or taken by some writer's channel. */
  ghost predicate LogInv(s: Store) {
    forall e :: multiset(s.wal)[e]
             == multiset(s.inflight)[e] + multiset(s.refused)[e] + Taken(s.writers, e)
  }

  lemma WithoutOne(s: seq<PendingEvent>, k: nat)
    requires k < |s|
    ensures multiset(s) == multiset(Without(s, k)) + multiset{s[k]}
  {
    assert s == s[..k] + [s[k]] + s[k + 1..];
  }

  /** A step of one writer that takes nothing from its callers. */
  lemma NothingTaken(s: Store, i: nat, w: Writer)
    requires LogInv(s) && i < |s.writers| && w.accepted == s.writers[i].accepted
    ensures LogInv(s.(writers := s.writers[i := w]))
  {
    forall e ensures Taken(s.writers[i := w], e) == Taken(s.writers, e) {
      TakenUpdate(s.writers, |s.writers|, i, w, e);
    }
  }

  lemma EnqueueKeepsLog(s: Store, k: nat)
    requires s.writers != [] && LogInv(s)
    ensures LogInv(Step(s, Enqueue(k)))
  {
    hide TakenByFirst, Without;
    var last := |s.writers| - 1;
    if k < |s.inflight| {
      WithoutOne(s.inflight, k);
      var w := Send(s.writers[last], s.inflight[k]);
      forall e ensures Taken(s.writers[last := w], e) + multiset(s.writers[last].accepted)[e]
                    == Taken(s.writers, e) + multiset(w.accepted)[e] {
        TakenUpdate(s.writers, |s.writers|, last, w, e);
      }
    }
  }

  lemma WithDeadLetterKeepsLog(s: Store, maxBatch: nat, capacity: nat)
    requires s.writers != [] && LogInv(s)
    ensures LogInv(Step(s, WithDeadLetter(maxBatch, capacity)))
  {
    var last := |s.writers| - 1;
    NothingTaken(s, last, DropSender(s.writers[last]));
    var closed := s.writers[last := DropSender(s.writers[last])];
    forall e ensures Taken(closed + [NewWriter(maxBatch, capacity, true)], e) == Taken(closed, e) {
      TakenAppend(closed, |closed|, NewWriter(maxBatch, capacity, true), e);
    }
  }

  /** Only a send takes an event; the writer's own steps leave what it has accepted as it was. */
  lemma WriterKeepsLog(s: Store, i: nat, v: Writer, outcome: DbOutcome, receiverOpen: bool)
    requires LogInv(s) && i < |s.writers|
    requires var w := s.writers[i];
             v == DropSender(w) || v == Receive(w) || v == Tick(w) || v == Crash(w)
             || v == AttemptStep(w, s.table, outcome, receiverOpen)
    ensures LogInv(s.(writers := s.writers[i := v]))
  {
    hide LogInv;
    NothingTaken(s, i, v);
  }

  lemma PublishKeepsLog(s: Store, e: PendingEvent)
    requires s.writers != [] && LogInv(s)
    ensures LogInv(Step(s, Publish(e))) && LogInv(Step(s, PublishUnacked(e)))
  {
    hide Taken;
  }

  lemma AbandonKeepsLog(s: Store, k: nat)
    requires LogInv(s) && k < |s.inflight|
    ensures LogInv(s.(inflight := Without(s.inflight, k), refused := s.refused + [s.inflight[k]]))
  {
    hide Taken, Without;
    WithoutOne(s.inflight, k);
  }

  lemma OnlyLogMatters(s: Store, t: Store)
    requires LogInv(s)
    requires t.wal == s.wal && t.inflight == s.inflight && t.refused == s.refused && t.writers == s.writers
    ensures LogInv(t)
  {
  }

  lemma StepKeepsLog(s: Store, a: Action)
    requires s.writers != [] && LogInv(s)
    ensures LogInv(Step(s, a))
  {
    hide LogInv, Without, Send, DropSender, Receive, Tick, AttemptStep, Crash, Inserts, TableAfter;
    var last := |s.writers| - 1;
    match a
    case Publish(e) => PublishKeepsLog(s, e);
    case PublishUnacked(e) => PublishKeepsLog(s, e);
    case Enqueue(k) => EnqueueKeepsLog(s, k);
    case Abandon(k) => if k < |s.inflight| { AbandonKeepsLog(s, k); }
    case WithDeadLetter(maxBatch, capacity) => WithDeadLetterKeepsLog(s, maxBatch, capacity);
    case DropStore => WriterKeepsLog(s, last, DropSender(s.writers[last]), Down, false);
    case Receives(w) => if w <= last { WriterKeepsLog(s, w, Receive(s.writers[w]), Down, false); }
    case Ticks(w) => if w <= last { WriterKeepsLog(s, w, Tick(s.writers[w]), Down, false); }
    case Attempts(w, outcome, receiverOpen) =>
      if w <= last {
        var v := AttemptStep(s.writers[w], s.table, outcome, receiverOpen);
        WriterKeepsLog(s, w, v, outcome, receiverOpen);
        OnlyLogMatters(s.(writers := s.writers[w := v]), Step(s, a));
      }
    case Crashes(w) => if w <= last { WriterKeepsLog(s, w, Crash(s.writers[w]), Down, false); }
  }

  // ---- the table is whole batches, each writer's in its own order ----

  function Rows(commits: seq<Commit>): seq<PendingEvent> {
    if commits == [] then [] else Rows(commits[..|commits| - 1]) + commits[|commits| - 1].rows
  }

  /** The batches writer `i` has committed. */
  function CommitsOf(commits: seq<Commit>, i: nat): seq<seq<PendingEvent>> {
    if commits == [] then []
    else
      var c := commits[|commits| - 1];
      CommitsOf(commits[..|commits| - 1], i) + (if c.writer == i then [c.rows] else [])
  }

  /** The batches writer `i` knows to be, or has made, rows: its stored flushes, and the running one if stored. */
  function StoredOf(finished: seq<Flush>): seq<seq<PendingEvent>> {
    if finished == [] then []
    else
      var f := finished[|finished| - 1];
      StoredOf(finished[..|finished| - 1]) + (if f.stored then [f.events] else [])
  }

  function Stored(w: Writer): seq<seq<PendingEvent>> {
    StoredOf(w.finished)
    + (if w.phase.Flushing? && w.phase.stored then [w.batch]
       else if w.phase.Crashed? && w.phase.stored then [w.phase.interrupted] else [])
  }

  /** The batch's first key is taken, so no later attempt can insert it again. */
  predicate StoresBatch(table: seq<PendingEvent>, batch: seq<PendingEvent>) {
    batch != [] && HasKey(table, KeyOf(batch[0]))
  }

  ghost predicate TableInv(s: Store) {
    && s.table == s.initial + Rows(s.commits)
    && (DistinctKeys(s.initial) ==> DistinctKeys(s.table))
    && (forall c :: 0 <= c < |s.commits| ==> s.commits[c].writer < |s.writers|)
    && (forall i :: 0 <= i < |s.writers| ==> CommitsOf(s.commits, i) == Stored(s.writers[i]))
    && (forall i :: 0 <= i < |s.writers| && s.writers[i].phase.Flushing? && s.writers[i].phase.stored ==>
          StoresBatch(s.table, s.writers[i].batch))
  }

  lemma CommitsOfAppend(commits: seq<Commit>, c: Commit, i: nat)
    ensures CommitsOf(commits + [c], i) == CommitsOf(commits, i) + (if c.writer == i then [c.rows] else [])
    ensures Rows(commits + [c]) == Rows(commits) + c.rows
  {
  }

  lemma {:induction false} NoCommitsYet(commits: seq<Commit>, i: nat)
    requires forall c :: 0 <= c < |commits| ==> commits[c].writer < i
    ensures CommitsOf(commits, i) == []
  {
    if commits == [] {
    } else {
      NoCommitsYet(commits[..|commits| - 1], i);
    }
  }

  lemma StoredAfterFlush(w: Writer, fate: Fate, stored: bool, outcomes: seq<DbOutcome>)
    requires w.phase.Flushing?
    ensures Stored(FinishFlush(w, fate, stored, outcomes))
            == StoredOf(w.finished) + (if stored then [w.batch] else [])
  {
  }

  lemma AttemptStores(w: Writer, table: seq<PendingEvent>, outcome: DbOutcome, receiverOpen: bool)
    requires w.phase.Flushing? && w.phase.stored ==> StoresBatch(table, w.batch)
    ensures Stored(AttemptStep(w, table, outcome, receiverOpen))
            == Stored(w) + (if Inserts(w, table, outcome) then [w.batch] else [])
  {
    if w.phase.Flushing? {
      var stored := w.phase.stored || Inserts(w, table, outcome);
      var outcomes := w.phase.outcomes + [outcome];
      StoredAfterFlush(w, Committed, stored, outcomes);
      StoredAfterFlush(w, FateOf(w, false, receiverOpen), stored, outcomes);
    }
  }

  lemma AttemptStoresBatch(w: Writer, table: seq<PendingEvent>, outcome: DbOutcome, receiverOpen: bool)
    requires w.phase.Flushing? && w.phase.stored ==> StoresBatch(table, w.batch)
    ensures var w' := AttemptStep(w, table, outcome, receiverOpen);
            w'.phase.Flushing? && w'.phase.stored ==> StoresBatch(TableAfter(w, table, outcome), w'.batch)
  {
    if Inserts(w, table, outcome) {
      assert (table + w.batch)[|table|] == w.batch[0];
    }
  }

  lemma HasKeyGrows(table: seq<PendingEvent>, more: seq<PendingEvent>, k: Key)
    requires HasKey(table, k)
    ensures HasKey(table + more, k)
  {
    var i :| 0 <= i < |table| && KeyOf(table[i]) == k;
    assert (table + more)[i] == table[i];
  }

  lemma QuietStep(s: Store, i: nat, w: Writer)
    requires TableInv(s) && i < |s.writers| && Stored(w) == Stored(s.writers[i])
    requires w.phase.Flushing? && w.phase.stored ==> StoresBatch(s.table, w.batch)
    ensures TableInv(s.(writers := s.writers[i := w]))
  {
  }

  /** What one committed transaction does to the histories, for writer `i`. */
  lemma CommitForWriter(s: Store, w: nat, v: Writer, i: nat)
    requires TableInv(s) && w < |s.writers| && i < |s.writers|
    requires Stored(v) == Stored(s.writers[w]) + [s.writers[w].batch]
    requires v.phase.Flushing? && v.phase.stored ==> StoresBatch(s.table + s.writers[w].batch, v.batch)
    ensures var u := s.writers[w := v][i];
            && CommitsOf(s.commits + [Commit(w, s.writers[w].batch)], i) == Stored(u)
            && (u.phase.Flushing? && u.phase.stored ==> StoresBatch(s.table + s.writers[w].batch, u.batch))
  {
    hide Stored, CommitsOf, Rows, DistinctKeys;
    CommitsOfAppend(s.commits, Commit(w, s.writers[w].batch), i);
    assert CommitsOf(s.commits, i) == Stored(s.writers[i]);
    if i != w && s.writers[i].phase.Flushing? && s.writers[i].phase.stored {
      HasKeyGrows(s.table, s.writers[w].batch, KeyOf(s.writers[i].batch[0]));
    }
  }

  lemma AttemptKeepsTable(s: Store, w: nat, outcome: DbOutcome, receiverOpen: bool)
    requires TableInv(s) && s.writers != [] && w < |s.writers|
    ensures TableInv(Step(s, Attempts(w, outcome, receiverOpen)))
  {
    hide AttemptStep, Stored, CommitsOf, DistinctKeys, StoresBatch;
    var wr := s.writers[w];
    var v := AttemptStep(wr, s.table, outcome, receiverOpen);
    AttemptStores(wr, s.table, outcome, receiverOpen);
    AttemptStoresBatch(wr, s.table, outcome, receiverOpen);
    var s' := Step(s, Attempts(w, outcome, receiverOpen));
    if !Inserts(wr, s.table, outcome) {
      assert s.commits + [] == s.commits;
      assert Stored(wr) + [] == Stored(wr);
      QuietStep(s, w, v);
      assert s' == s.(writers := s.writers[w := v]);
    } else {
      CommitsOfAppend(s.commits, Commit(w, wr.batch), w);
      assert s.initial + Rows(s.commits) + wr.batch == s.initial + (Rows(s.commits) + wr.batch);
      if DistinctKeys(s.initial) {
        InsertKeepsKeysDistinct(s.table, wr.batch);
      }
      forall i | 0 <= i < |s'.writers|
        ensures CommitsOf(s'.commits, i) == Stored(s'.writers[i])
        ensures s'.writers[i].phase.Flushing? && s'.writers[i].phase.stored ==>
                  StoresBatch(s'.table, s'.writers[i].batch)
      {
        CommitForWriter(s, w, v, i);
      }
    }
  }

  /** Steps other than transactions neither store a batch nor forget that one is stored. */
  lemma QuietStored(w: Writer, e: PendingEvent, v: Writer)
    requires v == Send(w, e) || v == DropSender(w) || v == Receive(w) || v == Tick(w) || v == Crash(w)
    ensures Stored(v) == Stored(w)
    ensures v.phase.Flushing? && v.phase.stored ==> w.phase.Flushing? && w.phase.stored && v.batch == w.batch
  {
  }

  lemma NewWriterStoresNothing(maxBatch: nat, capacity: nat)
    ensures Stored(NewWriter(maxBatch, capacity, true)) == []
    ensures !NewWriter(maxBatch, capacity, true).phase.Flushing?
  {
  }

  lemma WithDeadLetterKeepsTable(s: Store, maxBatch: nat, capacity: nat)
    requires WritersInv(s) && TableInv(s)
    ensures TableInv(Step(s, WithDeadLetter(maxBatch, capacity)))
  {
    hide Stored, CommitsOf, Rows, DistinctKeys, StoresBatch, Inv, DropSender, NewWriter;
    var last := |s.writers| - 1;
    QuietStored(s.writers[last], PendingEvent("", "", ""), DropSender(s.writers[last]));
    QuietStep(s, last, DropSender(s.writers[last]));
    NoCommitsYet(s.commits, |s.writers|);
    NewWriterStoresNothing(maxBatch, capacity);
  }

  lemma WriterKeepsTable(s: Store, i: nat, e: PendingEvent, v: Writer)
    requires WritersInv(s) && TableInv(s) && i < |s.writers|
    requires var w := s.writers[i];
             v == Send(w, e) || v == DropSender(w) || v == Receive(w) || v == Tick(w) || v == Crash(w)
    ensures TableInv(s.(writers := s.writers[i := v]))
  {
    QuietStored(s.writers[i], e, v);
    QuietStep(s, i, v);
  }

  lemma StepKeepsTable(s: Store, a: Action)
    requires WritersInv(s) && TableInv(s)
    ensures TableInv(Step(s, a))
  {
    hide Stored, CommitsOf, Rows, StoresBatch, DistinctKeys, Inv, Send, DropSender, Receive, Tick, AttemptStep, Crash;
    var last := |s.writers| - 1;
    var none := PendingEvent("", "", "");
    match a
    case Publish(e) =>
    case PublishUnacked(e) =>
    case Enqueue(k) =>
      if k < |s.inflight| {
        WriterKeepsTable(s, last, s.inflight[k], Send(s.writers[last], s.inflight[k]));
      }
    case Abandon(k) =>
    case WithDeadLetter(maxBatch, capacity) => WithDeadLetterKeepsTable(s, maxBatch, capacity);
    case DropStore => WriterKeepsTable(s, last, none, DropSender(s.writers[last]));
    case Receives(w) => if w <= last { WriterKeepsTable(s, w, none, Receive(s.writers[w])); }
    case Ticks(w) => if w <= last { WriterKeepsTable(s, w, none, Tick(s.writers[w])); }
    case Attempts(w, outcome, receiverOpen) =>
      if w <= last { AttemptKeepsTable(s, w, outcome, receiverOpen); }
    case Crashes(w) => if w <= last { WriterKeepsTable(s, w, none, Crash(s.writers[w])); }
  }
}
