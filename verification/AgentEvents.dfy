/**
 The `agent_events` table and the four-attempt flush into it.

 A flush is one transaction holding one multi-row INSERT. The table has a UNIQUE key on
 (agent_id, event_id) and the INSERT has no IGNORE, so the rows go in together or not at all.
 */
module AgentEvents {

  /** An event on its way to the table. The JSON envelope is determined by these three fields. */
  datatype PendingEvent = PendingEvent(agentId: string, eventId: string, body: string)

  datatype Key = Key(agentId: string, eventId: string)

  function KeyOf(e: PendingEvent): Key {
    Key(e.agentId, e.eventId)
  }

  predicate DistinctKeys(rows: seq<PendingEvent>) {
    forall i, j :: 0 <= i < j < |rows| ==> KeyOf(rows[i]) != KeyOf(rows[j])
  }

  predicate HasKey(rows: seq<PendingEvent>, k: Key) {
    exists i :: 0 <= i < |rows| && KeyOf(rows[i]) == k
  }

  /** What the database does with one transaction, as the environment decides it. */
  datatype DbOutcome =
    | Down     // an error, and nothing was committed
    | Healthy  // the statement was executed and its result reported
    | AckLost  // the statement was executed, but the writer saw an error

  /** The INSERT is legal: it has a row, no key twice, and no key that is stored already. */
  predicate Accepts(table: seq<PendingEvent>, batch: seq<PendingEvent>) {
    && batch != []
    && DistinctKeys(batch)
    && forall i :: 0 <= i < |batch| ==> !HasKey(table, KeyOf(batch[i]))
  }

  /** The UNIQUE key is both columns: two rows clash exactly if they agree in agent and event id. */
  lemma KeysClashIff(x: PendingEvent, y: PendingEvent)
    ensures KeyOf(x) == KeyOf(y) <==> x.agentId == y.agentId && x.eventId == y.eventId
  {
  }

  datatype Result = Result(table: seq<PendingEvent>, ok: bool)

  /** One transaction: begin, INSERT, commit. */
  function Attempt(table: seq<PendingEvent>, batch: seq<PendingEvent>, outcome: DbOutcome): Result {
    if outcome.Down? || !Accepts(table, batch)
    then Result(table, false)
    else Result(table + batch, outcome.Healthy?)
  }

  /** Attempts until one reports success or the outcomes are used up. */
  function Retry(table: seq<PendingEvent>, batch: seq<PendingEvent>, outcomes: seq<DbOutcome>): Result
    decreases |outcomes|
  {
    if outcomes == [] then Result(table, false)
    else
      var a := Attempt(table, batch, outcomes[0]);
      if a.ok then a else Retry(a.table, batch, outcomes[1..])
  }

  /** Some attempt reached the database. */
  predicate Reached(outcomes: seq<DbOutcome>) {
    exists k :: 0 <= k < |outcomes| && !outcomes[k].Down?
  }

  /** The first attempt that reached the database, or the number of attempts if none did. */
  function FirstReached(outcomes: seq<DbOutcome>): (k: nat)
    ensures k <= |outcomes|
    ensures forall j :: 0 <= j < k ==> outcomes[j].Down?
    ensures k < |outcomes| ==> !outcomes[k].Down?
  {
    if outcomes == [] || !outcomes[0].Down? then 0 else 1 + FirstReached(outcomes[1..])
  }

  /**
   What a transaction does, column by column. It is legal if there is a row to insert, no two of its rows agree
   in both ids, and none agrees in both with a stored row. Then a healthy one stores all of it, and one whose
   result is lost does so too; any other stores nothing and fails.
   */
  lemma AttemptByColumns(table: seq<PendingEvent>, batch: seq<PendingEvent>, outcome: DbOutcome)
    ensures var legal :=
              && batch != []
              && (forall i, j :: 0 <= i < j < |batch| ==>
                    batch[i].agentId != batch[j].agentId || batch[i].eventId != batch[j].eventId)
              && (forall i, j :: 0 <= i < |batch| && 0 <= j < |table| ==>
                    batch[i].agentId != table[j].agentId || batch[i].eventId != table[j].eventId);
            Attempt(table, batch, outcome)
            == if legal && outcome == Healthy then Result(table + batch, true)
               else if legal && outcome == AckLost then Result(table + batch, false)
               else Result(table, false)
  {
    forall x: PendingEvent, y: PendingEvent
      ensures KeyOf(x) == KeyOf(y) <==> x.agentId == y.agentId && x.eventId == y.eventId
    {
      KeysClashIff(x, y);
    }
  }

  lemma InsertKeepsKeysDistinct(table: seq<PendingEvent>, batch: seq<PendingEvent>)
    requires DistinctKeys(table) && Accepts(table, batch)
    ensures DistinctKeys(table + batch)
  {
  }

  /** A batch that is in the table already is refused from then on. */
  lemma StoredBatchIsRefused(table: seq<PendingEvent>, batch: seq<PendingEvent>)
    requires batch != []
    ensures !Accepts(table + batch, batch)
  {
    assert (table + batch)[|table|] == batch[0];
    assert HasKey(table + batch, KeyOf(batch[0]));
  }

  lemma {:induction false} RefusedBatchNeverCommits(
      table: seq<PendingEvent>, batch: seq<PendingEvent>, outcomes: seq<DbOutcome>)
    requires !Accepts(table, batch)
    ensures Retry(table, batch, outcomes) == Result(table, false)
  {
    if outcomes == [] {
    } else {
      RefusedBatchNeverCommits(table, batch, outcomes[1..]);
    }
  }

  /** The retry loop, decided for every sequence of outcomes by the first attempt that got through. */
  lemma {:induction false} RetryIsDecidedByFirstReached(
      table: seq<PendingEvent>, batch: seq<PendingEvent>, outcomes: seq<DbOutcome>)
    ensures var k := FirstReached(outcomes);
            var stored := Accepts(table, batch) && k < |outcomes|;
            && Retry(table, batch, outcomes).table == (if stored then table + batch else table)
            && Retry(table, batch, outcomes).ok == (stored && outcomes[k].Healthy?)
  {
    if !Accepts(table, batch) {
      RefusedBatchNeverCommits(table, batch, outcomes);
    } else if outcomes == [] {
    } else {
      match outcomes[0]
      case Down => RetryIsDecidedByFirstReached(table, batch, outcomes[1..]);
      case Healthy =>
      case AckLost =>
        StoredBatchIsRefused(table, batch);
        RefusedBatchNeverCommits(table + batch, batch, outcomes[1..]);
    }
  }

  /** Keys stay unique, the batch is stored wholly or not at all, and success means wholly. */
  lemma FlushIsAtomic(table: seq<PendingEvent>, batch: seq<PendingEvent>, outcomes: seq<DbOutcome>)
    requires DistinctKeys(table)
    ensures var r := Retry(table, batch, outcomes);
            && DistinctKeys(r.table)
            && (r.table == table || r.table == table + batch)
            && (r.ok ==> r.table == table + batch && r.table != table)
  {
    RetryIsDecidedByFirstReached(table, batch, outcomes);
    if Accepts(table, batch) {
      InsertKeepsKeysDistinct(table, batch);
    }
  }

  /** A flush reported as failed is nevertheless stored exactly when an ambiguous commit came first. */
  lemma FailedYetStoredIffAmbiguous(
      table: seq<PendingEvent>, batch: seq<PendingEvent>, outcomes: seq<DbOutcome>)
    requires batch != []
    ensures var r := Retry(table, batch, outcomes);
            !r.ok && r.table == table + batch
            <==> Accepts(table, batch)
                 && exists k :: 0 <= k < |outcomes| && outcomes[k].AckLost?
                                && forall j :: 0 <= j < k ==> outcomes[j].Down?
  {
    RetryIsDecidedByFirstReached(table, batch, outcomes);
    var k := FirstReached(outcomes);
    assert |table + batch| > |table|;
    if i :| 0 <= i < |outcomes| && outcomes[i].AckLost? && forall j :: 0 <= j < i ==> outcomes[j].Down? {
      assert k == i;
    }
  }

  /**
   Without ambiguous commits, a flush commits exactly when the batch is acceptable and some attempt
   is healthy. Otherwise no row of it is stored, the innocent ones included.
   */
  lemma PoisonBatch(table: seq<PendingEvent>, batch: seq<PendingEvent>, outcomes: seq<DbOutcome>)
    requires AckLost !in outcomes
    ensures var r := Retry(table, batch, outcomes);
            && (r.ok <==> Accepts(table, batch) && Healthy in outcomes)
            && (!r.ok ==> r.table == table)
  {
    RetryIsDecidedByFirstReached(table, batch, outcomes);
    var k := FirstReached(outcomes);
    if Healthy in outcomes {
      var i :| 0 <= i < |outcomes| && outcomes[i] == Healthy;
      assert k <= i;
      assert outcomes[k] in outcomes;
    }
  }

  /** INSERT IGNORE, row by row: what README.md line 22 says happens to duplicates. */
  function InsertIgnore(table: seq<PendingEvent>, events: seq<PendingEvent>): seq<PendingEvent>
    decreases |events|
  {
    if events == [] then table
    else if HasKey(table, KeyOf(events[0])) then InsertIgnore(table, events[1..])
    else InsertIgnore(table + [events[0]], events[1..])
  }

  predicate AllStored(table: seq<PendingEvent>, events: seq<PendingEvent>) {
    forall i :: 0 <= i < |events| ==> HasKey(table, KeyOf(events[i]))
  }

  lemma AllStoredCons(table: seq<PendingEvent>, events: seq<PendingEvent>)
    requires events != []
    ensures AllStored(table, events)
            <==> HasKey(table, KeyOf(events[0])) && AllStored(table, events[1..])
  {
  }

  lemma HasKeyAppend(table: seq<PendingEvent>, e: PendingEvent)
    ensures forall k :: HasKey(table + [e], k) <==> HasKey(table, k) || k == KeyOf(e)
  {
    forall k ensures HasKey(table + [e], k) <==> HasKey(table, k) || k == KeyOf(e) {
      if HasKey(table, k) {
        var i :| 0 <= i < |table| && KeyOf(table[i]) == k;
        assert (table + [e])[i] == table[i];
      }
      assert (table + [e])[|table|] == e;
    }
  }

  lemma DistinctCons(table: seq<PendingEvent>, events: seq<PendingEvent>)
    requires events != [] && !HasKey(table, KeyOf(events[0]))
    ensures (DistinctKeys(events) && forall i :: 0 <= i < |events| ==> !HasKey(table, KeyOf(events[i])))
            <==> (DistinctKeys(events[1..])
                  && forall i :: 0 <= i < |events| - 1 ==> !HasKey(table + [events[0]], KeyOf(events[1..][i])))
  {
    var e, rest := events[0], events[1..];
    HasKeyAppend(table, e);
    if DistinctKeys(rest) && forall i :: 0 <= i < |rest| ==> !HasKey(table + [e], KeyOf(rest[i])) {
      forall i, j | 0 <= i < j < |events| ensures KeyOf(events[i]) != KeyOf(events[j]) {
        assert events[j] == rest[j - 1];
        if i > 0 { assert events[i] == rest[i - 1]; }
      }
      forall i | 0 <= i < |events| ensures !HasKey(table, KeyOf(events[i])) {
        if i > 0 { assert events[i] == rest[i - 1]; }
      }
    }
    if DistinctKeys(events) && forall i :: 0 <= i < |events| ==> !HasKey(table, KeyOf(events[i])) {
      forall i | 0 <= i < |rest| ensures !HasKey(table + [e], KeyOf(rest[i])) {
        assert rest[i] == events[i + 1];
      }
    }
  }

  lemma {:induction false} InsertIgnoreGrows(table: seq<PendingEvent>, events: seq<PendingEvent>)
    ensures table <= InsertIgnore(table, events)
    ensures |InsertIgnore(table, events)| <= |table| + |events|
    ensures InsertIgnore(table, events) == table <==> AllStored(table, events)
    ensures |InsertIgnore(table, events)| == |table| + |events|
            <==> DistinctKeys(events) && forall i :: 0 <= i < |events| ==> !HasKey(table, KeyOf(events[i]))
    ensures |InsertIgnore(table, events)| == |table| + |events| ==> InsertIgnore(table, events) == table + events
    decreases |events|
  {
    if events == [] {
    } else {
      var e, rest := events[0], events[1..];
      if HasKey(table, KeyOf(e)) {
        InsertIgnoreGrows(table, rest);
        AllStoredCons(table, events);
      } else {
        InsertIgnoreGrows(table + [e], rest);
        DistinctCons(table, events);
        assert table + [e] + rest == table + events;
      }
    }
  }

  /**
   README.md line 22 says duplicates are safely ignored. On a healthy database the plain INSERT leaves
   the table as INSERT IGNORE would exactly when the batch holds no duplicate at all, or nothing else.
   */
  lemma DuplicatesIgnoredIff(table: seq<PendingEvent>, batch: seq<PendingEvent>)
    ensures Attempt(table, batch, Healthy).table == InsertIgnore(table, batch)
            <==> Accepts(table, batch) || AllStored(table, batch)
  {
    InsertIgnoreGrows(table, batch);
  }

  /** The same for the whole flush, under every sequence of outcomes. */
  lemma RetryIgnoresDuplicatesIff(table: seq<PendingEvent>, batch: seq<PendingEvent>, outcomes: seq<DbOutcome>)
    ensures Retry(table, batch, outcomes).table == InsertIgnore(table, batch)
            <==> AllStored(table, batch) || (Accepts(table, batch) && Reached(outcomes))
  {
    RetryIsDecidedByFirstReached(table, batch, outcomes);
    InsertIgnoreGrows(table, batch);
  }

  lemma {:induction false} InsertIgnoreConcat(table: seq<PendingEvent>, a: seq<PendingEvent>, b: seq<PendingEvent>)
    ensures InsertIgnore(table, a + b) == InsertIgnore(InsertIgnore(table, a), b)
    decreases |a|
  {
    if a == [] {
      assert a + b == b;
    } else {
      assert (a + b)[1..] == a[1..] + b;
      InsertIgnoreConcat(if HasKey(table, KeyOf(a[0])) then table else table + [a[0]], a[1..], b);
    }
  }

  /** The claim fails: one stored key keeps a new event out of the table, whatever the attempts do. */
  lemma DuplicateBlocksInnocentEvent(outcomes: seq<DbOutcome>)
    ensures var stored := PendingEvent("a", "1", "x");
            var novel := PendingEvent("a", "2", "y");
            && Retry([stored], [stored, novel], outcomes) == Result([stored], false)
            && InsertIgnore([stored], [stored, novel]) == [stored, novel]
  {
    var stored, novel := PendingEvent("a", "1", "x"), PendingEvent("a", "2", "y");
    var batch := [stored, novel];
    assert KeyOf([stored][0]) == KeyOf(batch[0]);
    assert HasKey([stored], KeyOf(batch[0]));
    RefusedBatchNeverCommits([stored], batch, outcomes);
    assert batch[1..] == [novel];
    assert KeyOf(novel) != KeyOf(stored);
    assert !HasKey([stored], KeyOf(novel));
    assert InsertIgnore([stored], [novel]) == InsertIgnore([stored] + [novel], [novel][1..]);
  }
}
