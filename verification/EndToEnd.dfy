/**
 From `save_event` to `resume_agent`. The stream is the write path's log: each acknowledged or unacknowledged
 publish adds one message, and the ingest loop reads them under redelivery, reordering and crashes.
 */
module EndToEnd {
  import opened Wrappers
  import opened AgentEvents
  import opened AgentTraces
  import opened Resurrection
  import EventStore
  import EventStoreTheorems
  import TraceIngest

  datatype System = System(store: EventStore.Store, ingest: TraceIngest.Ingest)

  datatype Action =
    | Write(w: EventStore.Action)
    | Read(r: TraceIngest.Action)

  /** What `save_event` publishes, and the sequence the stream gives it. */
  function MessageOf(e: PendingEvent, sequence: nat): TraceIngest.Message {
    TraceIngest.Message(TraceIngest.TraceSubject(e.agentId), Some(sequence), Some(Envelope(e)))
  }

  /** Sequences start at 1. */
  function StreamOf(wal: seq<PendingEvent>): seq<TraceIngest.Message> {
    seq(|wal|, i requires 0 <= i < |wal| => MessageOf(wal[i], i + 1))
  }

  /** A write step appends to the stream what it appends to the log; only write steps publish. */
  function Step(s: System, a: Action): System
    requires s.store.writers != []
  {
    match a
    case Write(w) =>
      var store := EventStore.Step(s.store, w);
      System(store, s.ingest.(stream := StreamOf(store.wal)))
    case Read(r) => if r.Publish? then s else s.(ingest := TraceIngest.Step(s.ingest, r))
  }

  lemma WritersStay(s: System, a: Action)
    requires s.store.writers != []
    ensures Step(s, a).store.writers != [] && s.store.wal <= Step(s, a).store.wal
  {
  }

  function Run(s: System, actions: seq<Action>): (s': System)
    requires s.store.writers != []
    ensures s'.store.writers != []
    decreases |actions|
  {
    if actions == [] then s
    else
      WritersStay(s, actions[0]);
      Run(Step(s, actions[0]), actions[1..])
  }

  function Init(rows: seq<PendingEvent>, maxBatch: nat, capacity: nat): (s: System)
    ensures s.store.writers != []
  {
    System(EventStore.Init(rows, maxBatch, capacity), TraceIngest.START)
  }

  ghost predicate Inv(s: System) {
    && s.ingest.stream == StreamOf(s.store.wal)
    && TraceIngest.Inv(s.ingest)
    && forall i :: i in s.ingest.log ==> i < |s.store.wal|
  }

  lemma LogGrowsByOne(s: EventStore.Store, w: EventStore.Action)
    requires s.writers != []
    ensures var wal' := EventStore.Step(s, w).wal; wal' == s.wal || (|wal'| == |s.wal| + 1 && s.wal <= wal')
  {
  }

  lemma WriteKeepsInv(s: System, w: EventStore.Action)
    requires s.store.writers != [] && Inv(s)
    ensures Inv(Step(s, Write(w)))
  {
    WritersStay(s, Write(w));
    var wal, wal' := s.store.wal, Step(s, Write(w)).store.wal;
    if wal' != wal {
      LogGrowsByOne(s.store, w);
      assert StreamOf(wal') == StreamOf(wal) + [MessageOf(wal'[|wal|], |wal| + 1)];
      TraceIngest.StreamGrowth(s.ingest.stream, MessageOf(wal'[|wal|], |wal| + 1), s.ingest.log);
    }
  }

  lemma ReadKeepsInv(s: System, r: TraceIngest.Action)
    requires s.store.writers != [] && Inv(s)
    ensures Inv(Step(s, Read(r)))
  {
    if !r.Publish? {
      TraceIngest.StepKeepsInv(s.ingest, r);
    }
  }

  lemma {:induction false} RunKeepsInv(s: System, actions: seq<Action>)
    requires s.store.writers != [] && Inv(s)
    ensures Inv(Run(s, actions))
    decreases |actions|
  {
    hide Inv, Step;
    if actions == [] {
    } else {
      WritersStay(s, actions[0]);
      match actions[0] {
        case Write(w) => WriteKeepsInv(s, w);
        case Read(r) => ReadKeepsInv(s, r);
      }
      RunKeepsInv(Step(s, actions[0]), actions[1..]);
    }
  }

  lemma Reachable(rows: seq<PendingEvent>, maxBatch: nat, capacity: nat, actions: seq<Action>)
    ensures Inv(Run(Init(rows, maxBatch, capacity), actions))
  {
    RunKeepsInv(Init(rows, maxBatch, capacity), actions);
  }

  // ---- what one saved event becomes ----

  /** The row of the event at position `i` of the log. */
  function SavedKey(wal: seq<PendingEvent>, i: nat): TraceKey
    requires i < |wal|
  {
    TraceKey(wal[i].agentId, i + 1)
  }

  function SavedRow(wal: seq<PendingEvent>, i: nat): Row
    requires i < |wal|
  {
    Row("thought", Some(Envelope(wal[i])))
  }

  lemma SavedEventTrace(wal: seq<PendingEvent>, i: nat)
    requires i < |wal| < TWO31 && TraceIngest.GoodId(wal[i].agentId)
    ensures TraceIngest.Readable(StreamOf(wal), i)
    ensures TraceIngest.KeyAt(StreamOf(wal), i) == SavedKey(wal, i)
    ensures TraceIngest.RowAt(StreamOf(wal), i) == SavedRow(wal, i)
  {
    TraceIngest.SubjectRoundTrip(wal[i].agentId);
    NarrowingIsInjectiveOnWindows(0, i + 1, i + 1);
  }

  predicate Good(wal: seq<PendingEvent>, i: nat) {
    i < |wal| && TraceIngest.GoodId(wal[i].agentId)
  }

  /** Every message that the consumer's filter lets through is acknowledged. */
  predicate AllAcked(s: System) {
    forall i: nat :: 0 <= i < |s.store.wal| && Good(s.store.wal, i) ==> i in s.ingest.acked
  }

  /** Row by row: the table holds exactly the logged events whose id is a single part, each at its own key. */
  predicate Mirrors(table: Traces, wal: seq<PendingEvent>) {
    && (forall i: nat :: 0 <= i < |wal| && Good(wal, i) ==>
          SavedKey(wal, i) in table && table[SavedKey(wal, i)] == SavedRow(wal, i))
    && (forall k :: k in table ==>
          1 <= k.step <= |wal| && k == SavedKey(wal, k.step - 1) && Good(wal, k.step - 1))
  }

  /** The stream sequence survives the two casts exactly below 2^31. */
  lemma SequenceSurvivesIff(e: PendingEvent, sequence: nat)
    ensures TraceIngest.StepOf(Envelope(e), Some(sequence)) == sequence <==> sequence < TWO31
  {
    NarrowingIsInjectiveOnWindows(0, 0, 0);
    NarrowingKeepsResidue(AsI64(sequence), 0);
    if sequence < TWO31 {
      NarrowingIsInjectiveOnWindows(0, sequence, sequence);
    }
  }

  lemma ReadableIffGood(wal: seq<PendingEvent>, i: nat)
    ensures TraceIngest.Readable(StreamOf(wal), i) <==> Good(wal, i)
  {
    if i < |wal| {
      TraceIngest.SubjectRoundTrip(wal[i].agentId);
    }
  }

  /** Whatever has been processed so far, every row is a logged event's own. */
  lemma RowsAreLoggedEvents(s: System, k: TraceKey)
    requires Inv(s) && |s.store.wal| < TWO31 && k in s.ingest.table
    ensures 1 <= k.step <= |s.store.wal| && k == SavedKey(s.store.wal, k.step - 1)
    ensures s.ingest.table[k] == SavedRow(s.store.wal, k.step - 1)
    ensures Good(s.store.wal, k.step - 1)
  {
    hide StreamOf, TraceIngest.Readable, TraceIngest.KeyAt, TraceIngest.RowAt;
    var stream, log, wal := s.ingest.stream, s.ingest.log, s.store.wal;
    TraceIngest.EveryRowHasAFirst(stream, log);
    var j :| 0 <= j < |log| && TraceIngest.FirstForKey(stream, log, j) && TraceIngest.KeyAt(stream, log[j]) == k;
    TraceIngest.FirstWriterWins(stream, log, j);
    assert log[j] in log;
    ReadableIffGood(wal, log[j]);
    SavedEventTrace(wal, log[j]);
  }

  lemma ProcessedEventHasItsRow(s: System, i: nat)
    requires Inv(s) && |s.store.wal| < TWO31 && i in s.ingest.log
    ensures Good(s.store.wal, i) && SavedKey(s.store.wal, i) in s.ingest.table
    ensures s.ingest.table[SavedKey(s.store.wal, i)] == SavedRow(s.store.wal, i)
  {
    hide StreamOf, TraceIngest.Readable, TraceIngest.KeyAt, TraceIngest.RowAt;
    var stream, log := s.ingest.stream, s.ingest.log;
    TraceIngest.EveryRowHasAFirst(stream, log);
    var j :| 0 <= j < |log| && log[j] == i;
    assert TraceIngest.Readable(stream, log[j]);
    ReadableIffGood(s.store.wal, i);
    SavedEventTrace(s.store.wal, i);
    assert TraceIngest.KeyAt(stream, log[j]) in s.ingest.table;
    RowsAreLoggedEvents(s, SavedKey(s.store.wal, i));
  }

  /**
   Exactly once from at least once. Take any run of callers, writers and ingest, with redelivery, reordering and
   crashes anywhere, and a stream short of 2^31 messages. Once every deliverable message is acknowledged, the
   traces table and the logged events whose id is a single subject part are in bijection.
   */
  lemma TracesMirrorTheLog(rows: seq<PendingEvent>, maxBatch: nat, capacity: nat, actions: seq<Action>)
    requires var s := Run(Init(rows, maxBatch, capacity), actions); |s.store.wal| < TWO31 && AllAcked(s)
    ensures var s := Run(Init(rows, maxBatch, capacity), actions); Mirrors(s.ingest.table, s.store.wal)
  {
    Reachable(rows, maxBatch, capacity, actions);
    var s := Run(Init(rows, maxBatch, capacity), actions);
    forall i: nat | 0 <= i < |s.store.wal| && Good(s.store.wal, i)
      ensures SavedKey(s.store.wal, i) in s.ingest.table
      ensures s.ingest.table[SavedKey(s.store.wal, i)] == SavedRow(s.store.wal, i)
    {
      assert i in s.ingest.log;
      ProcessedEventHasItsRow(s, i);
    }
    forall k | k in s.ingest.table
      ensures 1 <= k.step <= |s.store.wal| && k == SavedKey(s.store.wal, k.step - 1) && Good(s.store.wal, k.step - 1)
    {
      RowsAreLoggedEvents(s, k);
    }
  }

  /** `i` is where the log has the agent's last event. */
  predicate LastOf(wal: seq<PendingEvent>, agentId: string, i: nat) {
    i < |wal| && wal[i].agentId == agentId && forall j :: i < j < |wal| ==> wal[j].agentId != agentId
  }

  lemma MirrorResumes(table: Traces, wal: seq<PendingEvent>, agentId: string, i: nat)
    requires Mirrors(table, wal) && LastOf(wal, agentId, i) && TraceIngest.GoodId(agentId)
    ensures ResumeAgent(table, agentId) == AgentState(agentId, i + 1, Payload(Envelope(wal[i])))
  {
    var k := SavedKey(wal, i);
    assert Good(wal, i);
    ResumeIsTheMaximum(table, agentId, k);
    forall o | IsThought(table, o, agentId) ensures o.step <= k.step {
      assert o == SavedKey(wal, o.step - 1);
    }
  }

  /** An agent with no row to its name: it published nothing, or under an id the consumer is never given. */
  lemma MirrorStartsNew(table: Traces, wal: seq<PendingEvent>, agentId: string)
    requires Mirrors(table, wal)
    requires TraceIngest.GoodId(agentId) ==> forall j :: 0 <= j < |wal| ==> wal[j].agentId != agentId
    ensures ResumeAgent(table, agentId) == AgentState(agentId, 0, NewAgent)
  {
  }

  /**
   Once everything is acknowledged, an agent resumes with its last published event, at that event's stream
   sequence, exactly if its id is a single subject part; otherwise it starts new.
   */
  lemma ResumeReturnsLastPublished(rows: seq<PendingEvent>, maxBatch: nat, capacity: nat, actions: seq<Action>,
                                   agentId: string, i: nat)
    requires var s := Run(Init(rows, maxBatch, capacity), actions); |s.store.wal| < TWO31 && AllAcked(s)
    requires LastOf(Run(Init(rows, maxBatch, capacity), actions).store.wal, agentId, i)
    ensures var s := Run(Init(rows, maxBatch, capacity), actions);
            ResumeAgent(s.ingest.table, agentId)
            == if TraceIngest.GoodId(agentId) then AgentState(agentId, i + 1, Payload(Envelope(s.store.wal[i])))
               else AgentState(agentId, 0, NewAgent)
  {
    TracesMirrorTheLog(rows, maxBatch, capacity, actions);
    var s := Run(Init(rows, maxBatch, capacity), actions);
    if TraceIngest.GoodId(agentId) {
      MirrorResumes(s.ingest.table, s.store.wal, agentId, i);
    } else {
      MirrorStartsNew(s.ingest.table, s.store.wal, agentId);
    }
  }

  lemma AckedIsProcessed(s: System, i: nat)
    requires Inv(s) && i in s.ingest.acked
    ensures i in s.ingest.log
  {
  }

  lemma ResumeCoversProcessed(s: System, i: nat)
    requires Inv(s) && |s.store.wal| < TWO31 && i in s.ingest.log
    ensures i < |s.store.wal|
    ensures var state := ResumeAgent(s.ingest.table, s.store.wal[i].agentId);
            && i + 1 <= state.stepIndex <= |s.store.wal|
            && s.store.wal[state.stepIndex - 1].agentId == s.store.wal[i].agentId
            && state.state == Payload(Envelope(s.store.wal[state.stepIndex - 1]))
  {
    ProcessedEventHasItsRow(s, i);
    var agentId := s.store.wal[i].agentId;
    ResumeIsTheMaximum(s.ingest.table, agentId, SavedKey(s.store.wal, i));
    var steps := ThoughtSteps(s.ingest.table, agentId);
    assert SavedKey(s.store.wal, i).step in steps;
    var top := TraceKey(agentId, Highest(steps));
    hide Inv;
    assert IsThought(s.ingest.table, top, agentId);
    RowsAreLoggedEvents(s, top);
  }

  /**
   Crash recovery before everything is acknowledged: an agent resumes at least at each of its events that has
   been acknowledged, and always with an event that it published at that very sequence.
   */
  lemma ResumeCoversAcked(rows: seq<PendingEvent>, maxBatch: nat, capacity: nat, actions: seq<Action>, i: nat)
    requires var s := Run(Init(rows, maxBatch, capacity), actions); |s.store.wal| < TWO31 && i in s.ingest.acked
    ensures var s := Run(Init(rows, maxBatch, capacity), actions);
            && i < |s.store.wal|
            && var state := ResumeAgent(s.ingest.table, s.store.wal[i].agentId);
               && i + 1 <= state.stepIndex <= |s.store.wal|
               && s.store.wal[state.stepIndex - 1].agentId == s.store.wal[i].agentId
               && state.state == Payload(Envelope(s.store.wal[state.stepIndex - 1]))
  {
    hide *;
    Reachable(rows, maxBatch, capacity, actions);
    var s := Run(Init(rows, maxBatch, capacity), actions);
    AckedIsProcessed(s, i);
    ResumeCoversProcessed(s, i);
  }

  lemma StepGrows(s: System, a: Action)
    requires s.store.writers != [] && Inv(s)
    ensures Grows(s.ingest.table, Step(s, a).ingest.table) && Inv(Step(s, a))
  {
    match a
    case Write(w) => WriteKeepsInv(s, w);
    case Read(r) =>
      ReadKeepsInv(s, r);
      TraceIngest.StepKeepsInv(s.ingest, r);
  }

  lemma {:induction false} RunGrows(s: System, actions: seq<Action>)
    requires s.store.writers != [] && Inv(s)
    ensures Grows(s.ingest.table, Run(s, actions).ingest.table)
    ensures s.store.wal <= Run(s, actions).store.wal
    decreases |actions|
  {
    hide Step, Inv;
    if actions == [] {
    } else {
      var s1 := Step(s, actions[0]);
      WritersStay(s, actions[0]);
      StepGrows(s, actions[0]);
      RunGrows(s1, actions[1..]);
    }
  }

  /** Whatever happens next, an agent never resumes at an earlier step than it could have before. */
  lemma ResumeNeverGoesBack(rows: seq<PendingEvent>, maxBatch: nat, capacity: nat, actions: seq<Action>,
                            more: seq<Action>, agentId: string)
    requires |Run(Run(Init(rows, maxBatch, capacity), actions), more).store.wal| < TWO31
    ensures var before := Run(Init(rows, maxBatch, capacity), actions);
            ResumeAgent(before.ingest.table, agentId).stepIndex
            <= ResumeAgent(Run(before, more).ingest.table, agentId).stepIndex
  {
    Reachable(rows, maxBatch, capacity, actions);
    var before := Run(Init(rows, maxBatch, capacity), actions);
    RunKeepsInv(before, more);
    RunGrows(before, more);
    var after := Run(before, more);
    ResumeIsMonotone(before.ingest.table, after.ingest.table, agentId);
    var steps := ThoughtSteps(after.ingest.table, agentId);
    if steps != {} {
      var x := Highest(steps);
      RowsAreLoggedEvents(after, TraceKey(agentId, x));
      assert x in steps && x >= 0;
    }
  }

  // ---- ingest can always catch up ----

  lemma {:induction false} RunConcat(s: System, a: seq<Action>, b: seq<Action>)
    requires s.store.writers != []
    ensures Run(s, a + b) == Run(Run(s, a), b)
    decreases |a|
  {
    hide Step;
    if a == [] {
      assert a + b == b;
    } else {
      assert (a + b)[1..] == a[1..] + b;
      WritersStay(s, a[0]);
      RunConcat(Step(s, a[0]), a[1..], b);
    }
  }

  lemma ReadOne(s: System, i: nat)
    requires s.store.writers != [] && Inv(s) && Good(s.store.wal, i)
    ensures var t := Run(s, [Read(TraceIngest.Process(i, Healthy)), Read(TraceIngest.Ack(i))]);
            && Inv(t) && t.store == s.store && t.ingest.acked == s.ingest.acked + {i}
  {
    ReadableIffGood(s.store.wal, i);
    var process, ack := Read(TraceIngest.Process(i, Healthy)), Read(TraceIngest.Ack(i));
    var s1 := Step(s, process);
    ReadKeepsInv(s, TraceIngest.Process(i, Healthy));
    ReadKeepsInv(s1, TraceIngest.Ack(i));
    assert [process, ack][1..] == [ack] && [ack][1..] == [];
    assert Run(s, [process, ack]) == Run(s1, [ack]) == Run(Step(s1, ack), []);
    hide Inv, TraceIngest.Readable, TraceIngest.TraceAt;
  }

  lemma {:induction false} ReadFirst(s: System, n: nat) returns (caughtUp: seq<Action>)
    requires s.store.writers != [] && Inv(s) && n <= |s.store.wal|
    ensures var t := Run(s, caughtUp);
            && Inv(t) && t.store == s.store && s.ingest.acked <= t.ingest.acked
            && forall i: nat :: i < n && Good(s.store.wal, i) ==> i in t.ingest.acked
  {
    hide Inv;
    if n == 0 {
      caughtUp := [];
    } else {
      caughtUp := ReadFirst(s, n - 1);
      var s1 := Run(s, caughtUp);
      if Good(s.store.wal, n - 1) {
        var more := [Read(TraceIngest.Process(n - 1, Healthy)), Read(TraceIngest.Ack(n - 1))];
        ReadOne(s1, n - 1);
        RunConcat(s, caughtUp, more);
        caughtUp := caughtUp + more;
      }
    }
  }

  /** From every reachable state, ingest alone can acknowledge every deliverable message. */
  lemma IngestCanCatchUp(rows: seq<PendingEvent>, maxBatch: nat, capacity: nat, actions: seq<Action>)
    returns (caughtUp: seq<Action>)
    ensures var s := Run(Init(rows, maxBatch, capacity), actions);
            var t := Run(s, caughtUp);
            t.store == s.store && AllAcked(t) && s.ingest.acked <= t.ingest.acked
  {
    Reachable(rows, maxBatch, capacity, actions);
    var s := Run(Init(rows, maxBatch, capacity), actions);
    caughtUp := ReadFirst(s, |s.store.wal|);
  }

  // ---- the two tables ----

  function Writes(actions: seq<Action>): seq<EventStore.Action> {
    if actions == [] then []
    else (if actions[0].Write? then [actions[0].w] else []) + Writes(actions[1..])
  }

  /** Ingest is no part of the write path: what the store does is a run of its own. */
  lemma {:induction false} StoreIsARun(s: System, actions: seq<Action>)
    requires s.store.writers != []
    ensures Run(s, actions).store == EventStore.Run(s.store, Writes(actions))
    decreases |actions|
  {
    if actions == [] {
    } else {
      var s' := Step(s, actions[0]);
      WritersStay(s, actions[0]);
      StoreIsARun(s', actions[1..]);
      hide EventStore.Step;
      if actions[0].Write? {
        assert Writes(actions)[1..] == Writes(actions[1..]);
      } else {
        assert Writes(actions) == Writes(actions[1..]);
      }
    }
  }

  /** The rows of `agent_traces` that hold this saved event. */
  function TracesHolding(table: Traces, e: PendingEvent): set<TraceKey> {
    set k | k in table && table[k] == Row("thought", Some(Envelope(e)))
  }

  function KeysUpTo(wal: seq<PendingEvent>, e: PendingEvent, n: nat): set<TraceKey>
    requires n <= |wal|
  {
    set i: nat | 0 <= i < n && wal[i] == e :: SavedKey(wal, i)
  }

  lemma {:induction false} OneKeyEach(wal: seq<PendingEvent>, e: PendingEvent, n: nat)
    requires n <= |wal|
    ensures |KeysUpTo(wal, e, n)| == multiset(wal[..n])[e]
  {
    if n == 0 {
    } else {
      OneKeyEach(wal, e, n - 1);
      assert wal[..n] == wal[..n - 1] + [wal[n - 1]];
      var rest := KeysUpTo(wal, e, n - 1);
      assert KeysUpTo(wal, e, n) == if wal[n - 1] == e then rest + {SavedKey(wal, n - 1)} else rest;
      assert SavedKey(wal, n - 1) !in rest;
    }
  }

  lemma MirrorCounts(table: Traces, wal: seq<PendingEvent>, e: PendingEvent)
    requires Mirrors(table, wal) && TraceIngest.GoodId(e.agentId)
    ensures |TracesHolding(table, e)| == multiset(wal)[e]
  {
    OneKeyEach(wal, e, |wal|);
    assert wal[..|wal|] == wal;
    forall k ensures k in TracesHolding(table, e) <==> k in KeysUpTo(wal, e, |wal|) {
      if k in TracesHolding(table, e) {
        assert k == SavedKey(wal, k.step - 1) && Good(wal, k.step - 1);
      }
      if k in KeysUpTo(wal, e, |wal|) {
        var i: nat :| 0 <= i < |wal| && wal[i] == e && k == SavedKey(wal, i);
        assert Good(wal, i);
      }
    }
    assert TracesHolding(table, e) == KeysUpTo(wal, e, |wal|);
  }

  lemma InitStoreRun(rows: seq<PendingEvent>, maxBatch: nat, capacity: nat, actions: seq<Action>)
    ensures Run(Init(rows, maxBatch, capacity), actions).store
            == EventStore.Run(EventStore.Init(rows, maxBatch, capacity), Writes(actions))
  {
    StoreIsARun(Init(rows, maxBatch, capacity), actions);
  }

  /**
   Table to table. Once every deliverable message is acknowledged, each event with a single-part id has at least
   as many rows of its own in `agent_traces` as were added to `agent_events` for it, whatever the writers did.
   */
  lemma RowsHaveTheirTraces(rows: seq<PendingEvent>, maxBatch: nat, capacity: nat, actions: seq<Action>,
                            e: PendingEvent)
    requires var s := Run(Init(rows, maxBatch, capacity), actions); |s.store.wal| < TWO31 && AllAcked(s)
    requires TraceIngest.GoodId(e.agentId)
    ensures var s := Run(Init(rows, maxBatch, capacity), actions);
            multiset(s.store.table)[e] <= multiset(rows)[e] + |TracesHolding(s.ingest.table, e)|
  {
    hide *;
    var s := Run(Init(rows, maxBatch, capacity), actions);
    TracesMirrorTheLog(rows, maxBatch, capacity, actions);
    MirrorCounts(s.ingest.table, s.store.wal, e);
    InitStoreRun(rows, maxBatch, capacity, actions);
    EventStoreTheorems.LogAccountsForEverything(rows, maxBatch, capacity, Writes(actions), 0, e);
  }

  /**
   And exactly as many, but for events that never reached a channel, when the keys are distinct, every writer has
   drained and every flush reached the database.
   */
  lemma DrainedTablesAgree(rows: seq<PendingEvent>, maxBatch: nat, capacity: nat, actions: seq<Action>,
                           e: PendingEvent)
    requires var s := Run(Init(rows, maxBatch, capacity), actions); |s.store.wal| < TWO31 && AllAcked(s)
    requires TraceIngest.GoodId(e.agentId)
    requires var s := Run(Init(rows, maxBatch, capacity), actions).store;
             && DistinctKeys(rows + s.wal)
             && forall i :: 0 <= i < |s.writers| ==>
                  s.writers[i].phase.Stopped? && EventStoreTheorems.AllReached(s.writers[i])
    ensures var s := Run(Init(rows, maxBatch, capacity), actions);
            multiset(s.store.table)[e] + multiset(s.store.inflight)[e] + multiset(s.store.refused)[e]
            == multiset(rows)[e] + |TracesHolding(s.ingest.table, e)|
  {
    hide *;
    var s := Run(Init(rows, maxBatch, capacity), actions);
    TracesMirrorTheLog(rows, maxBatch, capacity, actions);
    MirrorCounts(s.ingest.table, s.store.wal, e);
    InitStoreRun(rows, maxBatch, capacity, actions);
    EventStoreTheorems.LogAccountsForEverything(rows, maxBatch, capacity, Writes(actions), 0, e);
    EventStoreTheorems.DrainedStoresHoldEverything(rows, maxBatch, capacity, Writes(actions), e);
  }

  /** An id with a dot is published and logged, but no consumer is ever given it, so it is never resumed from. */
  lemma DottedIdIsNeverIngested(rows: seq<PendingEvent>, maxBatch: nat, capacity: nat, actions: seq<Action>, i: nat)
    requires i < |Run(Init(rows, maxBatch, capacity), actions).store.wal|
    requires !TraceIngest.GoodId(Run(Init(rows, maxBatch, capacity), actions).store.wal[i].agentId)
    ensures var s := Run(Init(rows, maxBatch, capacity), actions);
            i !in s.ingest.acked && i !in s.ingest.log
  {
    Reachable(rows, maxBatch, capacity, actions);
    var s := Run(Init(rows, maxBatch, capacity), actions);
    TraceIngest.SubjectRoundTrip(s.store.wal[i].agentId);
    assert !TraceIngest.Readable(s.ingest.stream, i);
  }
}
