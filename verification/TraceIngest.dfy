/**
 The ingest loop as a machine. The stream may deliver any message any number of times in any order, an
 insert may be applied without being reported, and a consumer may crash between insert and acknowledgement.
 */
module TraceIngest {
  import opened Wrappers
  import opened AgentEvents
  import opened AgentTraces
  import Resurrection

  /** A stream message. `info` is its stream sequence; the payload is None if it is not JSON. */
  datatype Message = Message(subject: string, info: Option<nat>, payload: Option<Json>)

  // ---- the subject ----

  /** `subject.split('.')` */
  function Split(s: string): (parts: seq<string>)
    ensures |parts| >= 1
  {
    if s == "" then [""]
    else
      var rest := Split(s[1..]);
      if s[0] == '.' then [""] + rest else [[s[0]] + rest[0]] + rest[1..]
  }

  /** The third part, or nothing. */
  function AgentIdOf(subject: string): string {
    var parts := Split(subject);
    if |parts| > 2 then parts[2] else ""
  }

  /** The consumer's filter `agent.trace.*`: the star stands for one part that is not empty. */
  predicate MatchesFilter(subject: string) {
    var parts := Split(subject);
    |parts| == 3 && parts[0] == "agent" && parts[1] == "trace" && parts[2] != ""
  }

  lemma {:induction false} SplitDotFree(s: string)
    ensures |Split(s)| == 1 <==> '.' !in s
    ensures '.' !in s ==> Split(s) == [s]
  {
    if s == "" {
    } else {
      SplitDotFree(s[1..]);
      assert s == [s[0]] + s[1..];
    }
  }

  lemma {:induction false} SplitAtDot(a: string, b: string)
    requires '.' !in a
    ensures Split(a + "." + b) == [a] + Split(b)
  {
    var s := a + "." + b;
    if a == "" {
      assert s[1..] == b;
    } else {
      assert s[1..] == a[1..] + "." + b;
      SplitAtDot(a[1..], b);
      assert a == [a[0]] + a[1..];
      assert s[0] == a[0] && s[0] in a;
    }
  }

  function TraceSubject(agentId: string): string {
    "agent" + "." + ("trace" + "." + agentId)
  }

  predicate GoodId(agentId: string) {
    agentId != "" && '.' !in agentId
  }

  /** A saved event is delivered, under its own id, exactly when that id is a single part. */
  lemma SubjectRoundTrip(agentId: string)
    ensures MatchesFilter(TraceSubject(agentId)) <==> GoodId(agentId)
    ensures GoodId(agentId) ==> AgentIdOf(TraceSubject(agentId)) == agentId
  {
    SplitAtDot("agent", "trace" + "." + agentId);
    SplitAtDot("trace", agentId);
    SplitDotFree(agentId);
    var parts := Split(agentId);
    assert Split(TraceSubject(agentId)) == ["agent"] + (["trace"] + parts);
    assert (["agent"] + (["trace"] + parts))[2] == parts[0];
  }

  function Join(parts: seq<string>): string {
    if parts == [] then "" else if |parts| == 1 then parts[0] else parts[0] + "." + Join(parts[1..])
  }

  /** Splitting loses nothing, and no part has a dot in it. */
  lemma {:induction false} SplitRoundTrip(s: string)
    ensures Join(Split(s)) == s
    ensures forall k :: 0 <= k < |Split(s)| ==> '.' !in Split(s)[k]
  {
    if s == "" {
    } else {
      var rest := Split(s[1..]);
      SplitRoundTrip(s[1..]);
      assert s == [s[0]] + s[1..];
      if s[0] == '.' {
        assert Split(s)[1..] == rest;
      } else {
        assert Split(s)[1..] == rest[1..];
      }
    }
  }

  /** The consumer is given exactly the subjects `agent.trace.<id>` whose id is one part, and reads that id. */
  lemma FilterIff(subject: string)
    ensures MatchesFilter(subject) <==> exists id :: GoodId(id) && subject == TraceSubject(id)
    ensures MatchesFilter(subject) ==> subject == TraceSubject(AgentIdOf(subject))
  {
    SplitRoundTrip(subject);
    if MatchesFilter(subject) {
      var parts := Split(subject);
      assert parts[1..] == [parts[1], parts[2]] && [parts[1], parts[2]][1..] == [parts[2]];
      assert Join([parts[1], parts[2]]) == parts[1] + "." + parts[2] by { assert Join([parts[2]]) == parts[2]; }
      assert GoodId(AgentIdOf(subject)) && subject == TraceSubject(AgentIdOf(subject));
    }
    forall id | GoodId(id) && subject == TraceSubject(id) ensures MatchesFilter(subject) {
      SubjectRoundTrip(id);
    }
  }

  // ---- one message ----

  /** The step the payload has of its own: a number outside 64 bits does not count as one. */
  function OwnStep(j: Json): Option<int> {
    if j.Object? && j.stepIndex.Some? && -TWO63 <= j.stepIndex.value < TWO63 then j.stepIndex else None
  }

  /** That step, or the stream sequence; narrowed to 32 bits either way. */
  function StepOf(j: Json, info: Option<nat>): int {
    var sequence := AsI64(if info.Some? then info.value else 0);
    AsI32(if OwnStep(j).Some? then OwnStep(j).value else sequence)
  }

  function TraceOf(m: Message): Option<Trace> {
    match m.payload
    case None => None
    case Some(j) =>
      Some(Trace(AgentIdOf(m.subject), StepOf(j, m.info),
                 ParseEventType(if j.Object? then j.eventType else None), j))
  }

  // ---- the machine ----

  datatype Ingest = Ingest(
    stream: seq<Message>,
    table: Traces,
    unacked: set<nat>,       // inserted by a consumer that has not acknowledged it yet
    acked: set<nat>,
    log: seq<nat>)           // history: the messages whose insert was applied, in order

  datatype Action =
    | Publish(m: Message)
    | Process(i: nat, outcome: DbOutcome)
    | Ack(i: nat)
    | Crash

  const START: Ingest := Ingest([], map[], {}, {}, [])

  /** A message the consumer can be given and can decode. */
  predicate Readable(stream: seq<Message>, i: nat) {
    i < |stream| && MatchesFilter(stream[i].subject) && stream[i].payload.Some?
  }

  function TraceAt(stream: seq<Message>, i: nat): Trace
    requires Readable(stream, i)
  {
    TraceOf(stream[i]).value
  }

  function KeyAt(stream: seq<Message>, i: nat): TraceKey
    requires Readable(stream, i)
  {
    KeyOfTrace(TraceAt(stream, i))
  }

  function RowAt(stream: seq<Message>, i: nat): Row
    requires Readable(stream, i)
  {
    RowOfTrace(TraceAt(stream, i))
  }

  function Step(s: Ingest, a: Action): Ingest {
    match a
    case Publish(m) => s.(stream := s.stream + [m])
    case Process(i, outcome) =>
      if !Readable(s.stream, i) then s
      else
        var (table, ok) := Insert(s.table, TraceAt(s.stream, i), outcome);
        s.(table := table,
           unacked := if ok then s.unacked + {i} else s.unacked,
           log := if outcome.Down? then s.log else s.log + [i])
    case Ack(i) =>
      if i !in s.unacked then s else s.(unacked := s.unacked - {i}, acked := s.acked + {i})
    case Crash => s.(unacked := {})
  }

  function Run(s: Ingest, actions: seq<Action>): Ingest
    decreases |actions|
  {
    if actions == [] then s else Run(Step(s, actions[0]), actions[1..])
  }

  // ---- the table is a function of the processing order ----

  predicate ValidLog(stream: seq<Message>, log: seq<nat>) {
    forall j :: 0 <= j < |log| ==> Readable(stream, log[j])
  }

  function TableOf(stream: seq<Message>, log: seq<nat>): Traces
    requires ValidLog(stream, log)
  {
    if log == [] then map[]
    else Put(TableOf(stream, log[..|log| - 1]), TraceAt(stream, log[|log| - 1]))
  }

  /** `log[j]` is the first message processed for its key. */
  predicate FirstForKey(stream: seq<Message>, log: seq<nat>, j: nat)
    requires ValidLog(stream, log)
  {
    j < |log| && forall k :: 0 <= k < j ==> KeyAt(stream, log[k]) != KeyAt(stream, log[j])
  }

  lemma {:induction false} ProcessedKeysHaveRows(stream: seq<Message>, log: seq<nat>)
    requires ValidLog(stream, log)
    ensures forall j {:trigger log[j]} :: 0 <= j < |log| ==> KeyAt(stream, log[j]) in TableOf(stream, log)
  {
    if log == [] {
    } else {
      hide Readable, TraceAt;
      var rest, last := log[..|log| - 1], |log| - 1;
      ProcessedKeysHaveRows(stream, rest);
      forall j | 0 <= j < |log| ensures KeyAt(stream, log[j]) in TableOf(stream, log) {
        if j < last {
          assert rest[j] == log[j];
        }
      }
    }
  }

  lemma FirstOf(stream: seq<Message>, log: seq<nat>, rest: seq<nat>, k: TraceKey) returns (j: nat)
    requires ValidLog(stream, log) && log != [] && rest == log[..|log| - 1] && k in TableOf(stream, log)
    requires k in TableOf(stream, rest) ==>
               exists j :: 0 <= j < |rest| && FirstForKey(stream, rest, j) && KeyAt(stream, rest[j]) == k
    ensures j < |log| && FirstForKey(stream, log, j) && KeyAt(stream, log[j]) == k
  {
    hide Readable, TraceAt;
    ProcessedKeysHaveRows(stream, rest);
    if k in TableOf(stream, rest) {
      j :| 0 <= j < |rest| && FirstForKey(stream, rest, j) && KeyAt(stream, rest[j]) == k;
      assert rest[j] == log[j];
    } else {
      j := |log| - 1;
      forall i | 0 <= i < j ensures KeyAt(stream, log[i]) != KeyAt(stream, log[j]) {
        assert rest[i] == log[i];
      }
    }
  }

  /** Each processed key has a row, and each row comes from a first message for its key. */
  lemma {:induction false} EveryRowHasAFirst(stream: seq<Message>, log: seq<nat>)
    requires ValidLog(stream, log)
    ensures forall k :: k in TableOf(stream, log) ==>
              exists j :: 0 <= j < |log| && FirstForKey(stream, log, j) && KeyAt(stream, log[j]) == k
    ensures forall j {:trigger log[j]} :: 0 <= j < |log| ==> KeyAt(stream, log[j]) in TableOf(stream, log)
  {
    ProcessedKeysHaveRows(stream, log);
    if log == [] {
    } else {
      hide Readable, TraceAt, KeyAt;
      var rest, last := log[..|log| - 1], |log| - 1;
      EveryRowHasAFirst(stream, rest);
      forall k | k in TableOf(stream, log)
        ensures exists j :: 0 <= j < |log| && FirstForKey(stream, log, j) && KeyAt(stream, log[j]) == k
      {
        var j := FirstOf(stream, log, rest, k);
      }
    }
  }

  /** The first message processed for a key is the one whose row stays. */
  lemma {:induction false} FirstWriterWins(stream: seq<Message>, log: seq<nat>, j: nat)
    requires ValidLog(stream, log) && FirstForKey(stream, log, j)
    ensures KeyAt(stream, log[j]) in TableOf(stream, log)
    ensures TableOf(stream, log)[KeyAt(stream, log[j])] == RowAt(stream, log[j])
  {
    hide Readable, TraceAt;
    var rest, last := log[..|log| - 1], |log| - 1;
    if j < last {
      assert FirstForKey(stream, rest, j);
      FirstWriterWins(stream, rest, j);
    } else {
      EveryRowHasAFirst(stream, rest);
      assert KeyAt(stream, log[last]) !in TableOf(stream, rest);
    }
  }

  lemma {:induction false} StreamGrowth(stream: seq<Message>, m: Message, log: seq<nat>)
    requires ValidLog(stream, log)
    ensures ValidLog(stream + [m], log) && TableOf(stream + [m], log) == TableOf(stream, log)
  {
    if log == [] {
    } else {
      StreamGrowth(stream, m, log[..|log| - 1]);
    }
  }

  ghost predicate Inv(s: Ingest) {
    && ValidLog(s.stream, s.log)
    && s.table == TableOf(s.stream, s.log)
    && forall i :: i in s.acked || i in s.unacked ==> i in s.log
  }

  lemma ProcessKeepsInv(s: Ingest, i: nat, outcome: DbOutcome)
    requires Inv(s) && Readable(s.stream, i)
    ensures Inv(Step(s, Process(i, outcome)))
    ensures Resurrection.Grows(s.table, Step(s, Process(i, outcome)).table)
  {
    hide TraceAt;
    var log := s.log + [i];
    assert log[..|s.log|] == s.log && log[|s.log|] == i;
    assert ValidLog(s.stream, log);
    assert TableOf(s.stream, log) == Put(s.table, TraceAt(s.stream, i));
  }

  lemma StepKeepsInv(s: Ingest, a: Action)
    requires Inv(s)
    ensures Inv(Step(s, a)) && s.stream <= Step(s, a).stream && Resurrection.Grows(s.table, Step(s, a).table)
  {
    hide TableOf, Insert, Readable, TraceAt;
    match a
    case Publish(m) => StreamGrowth(s.stream, m, s.log);
    case Process(i, outcome) => if Readable(s.stream, i) { ProcessKeepsInv(s, i, outcome); }
    case Ack(i) =>
    case Crash =>
  }

  lemma {:induction false} RunKeepsInv(s: Ingest, actions: seq<Action>)
    requires Inv(s)
    ensures Inv(Run(s, actions)) && s.stream <= Run(s, actions).stream
    ensures Resurrection.Grows(s.table, Run(s, actions).table)
    decreases |actions|
  {
    hide Inv, Step;
    if actions == [] {
    } else {
      StepKeepsInv(s, actions[0]);
      RunKeepsInv(Step(s, actions[0]), actions[1..]);
    }
  }

  /** Position `j` has the key of message `i`, and nothing up to there has both its key and its row. */
  predicate Overtakes(stream: seq<Message>, log: seq<nat>, j: nat, i: nat)
    requires ValidLog(stream, log) && Readable(stream, i) && j < |log|
  {
    && KeyAt(stream, log[j]) == KeyAt(stream, i)
    && forall k :: 0 <= k <= j && KeyAt(stream, log[k]) == KeyAt(stream, i) ==>
         RowAt(stream, log[k]) != RowAt(stream, i)
  }

  lemma FirstDecides(stream: seq<Message>, log: seq<nat>, first: nat, i: nat)
    requires ValidLog(stream, log) && Readable(stream, i)
    requires FirstForKey(stream, log, first) && KeyAt(stream, log[first]) == KeyAt(stream, i)
    ensures RowAt(stream, log[first]) != RowAt(stream, i)
            <==> exists j: nat :: j < |log| && Overtakes(stream, log, j, i)
  {
    hide Readable, KeyAt, RowAt;
    if RowAt(stream, log[first]) != RowAt(stream, i) {
      assert Overtakes(stream, log, first, i);
    }
    forall j: nat | j < |log| && Overtakes(stream, log, j, i) ensures first <= j {
    }
  }

  /**
   Acknowledgement is safe, and what can be lost. In every reachable state an acknowledged message has a row at
   its key, holding the content of the first message processed for that key, of whatever event type. Its own
   content is absent exactly when another message of its key was processed before any with its content.
   */
  lemma AckedMessageHasRow(actions: seq<Action>, i: nat) returns (first: nat)
    requires i in Run(START, actions).acked
    ensures var s := Run(START, actions);
            && ValidLog(s.stream, s.log) && Readable(s.stream, i)
            && KeyAt(s.stream, i) in s.table
            && FirstForKey(s.stream, s.log, first)
            && KeyAt(s.stream, s.log[first]) == KeyAt(s.stream, i)
            && s.table[KeyAt(s.stream, i)] == RowAt(s.stream, s.log[first])
            && (s.table[KeyAt(s.stream, i)] != RowAt(s.stream, i)
                <==> exists j: nat :: j < |s.log| && Overtakes(s.stream, s.log, j, i))
  {
    hide Readable, KeyAt, RowAt, Overtakes, Step;
    RunKeepsInv(START, actions);
    var s := Run(START, actions);
    EveryRowHasAFirst(s.stream, s.log);
    var j :| 0 <= j < |s.log| && s.log[j] == i;
    assert KeyAt(s.stream, s.log[j]) in s.table;
    first :| 0 <= first < |s.log| && FirstForKey(s.stream, s.log, first)
             && KeyAt(s.stream, s.log[first]) == KeyAt(s.stream, i);
    FirstWriterWins(s.stream, s.log, first);
    FirstDecides(s.stream, s.log, first, i);
  }

  lemma {:induction false} StaysUnacked(s: Ingest, actions: seq<Action>, i: nat)
    requires i !in s.unacked
    requires forall k :: 0 <= k < |actions| && actions[k].Process? ==> actions[k].i != i
    ensures i in Run(s, actions).acked <==> i in s.acked
    decreases |actions|
  {
    if actions == [] {
    } else {
      hide Readable, Insert, TraceAt;
      StaysUnacked(Step(s, actions[0]), actions[1..], i);
    }
  }

  /** A consumer that crashes acknowledges nothing it had inserted: that takes another delivery. */
  lemma CrashNeedsRedelivery(s: Ingest, actions: seq<Action>, i: nat)
    requires forall k :: 0 <= k < |actions| && actions[k].Process? ==> actions[k].i != i
    ensures i in Run(Step(s, Crash), actions).acked <==> i in s.acked
  {
    StaysUnacked(Step(s, Crash), actions, i);
  }

  // ---- confluence ----

  /** A schedule that processes these messages, in any order, each at least once. */
  ghost predicate Covers(log: seq<nat>, messages: set<nat>) {
    forall i :: i in log <==> i in messages
  }

  predicate AllReadable(stream: seq<Message>, messages: set<nat>) {
    forall i :: i in messages ==> Readable(stream, i)
  }

  predicate SameKeySameRow(stream: seq<Message>, messages: set<nat>)
    requires AllReadable(stream, messages)
  {
    forall i, j :: i in messages && j in messages && KeyAt(stream, i) == KeyAt(stream, j) ==>
      RowAt(stream, i) == RowAt(stream, j)
  }

  predicate SchedulesAgree(stream: seq<Message>, a: seq<nat>, b: seq<nat>) {
    ValidLog(stream, a) && ValidLog(stream, b) && TableOf(stream, a) == TableOf(stream, b)
  }

  lemma {:induction false} Enumerate(messages: set<nat>) returns (log: seq<nat>)
    ensures Covers(log, messages)
    decreases |messages|
  {
    if messages == {} {
      log := [];
    } else {
      var i :| i in messages;
      log := Enumerate(messages - {i});
      assert forall x :: x in messages <==> x == i || x in messages - {i};
      log := [i] + log;
    }
  }

  lemma CoverIsValid(stream: seq<Message>, messages: set<nat>, a: seq<nat>)
    requires AllReadable(stream, messages) && Covers(a, messages)
    ensures ValidLog(stream, a)
  {
    forall j | 0 <= j < |a| ensures Readable(stream, a[j]) {
      assert a[j] in a;
    }
  }

  lemma RowsInOther(stream: seq<Message>, messages: set<nat>, a: seq<nat>, b: seq<nat>)
    requires AllReadable(stream, messages) && SameKeySameRow(stream, messages)
    requires Covers(a, messages) && Covers(b, messages) && ValidLog(stream, a) && ValidLog(stream, b)
    ensures Resurrection.Grows(TableOf(stream, a), TableOf(stream, b))
  {
    hide Readable, TraceAt, KeyAt, RowAt, TableOf;
    EveryRowHasAFirst(stream, a);
    EveryRowHasAFirst(stream, b);
    var ta, tb := TableOf(stream, a), TableOf(stream, b);
    forall k | k in ta ensures k in tb && tb[k] == ta[k] {
      var i :| 0 <= i < |a| && FirstForKey(stream, a, i) && KeyAt(stream, a[i]) == k;
      FirstWriterWins(stream, a, i);
      assert a[i] in b;
      var x :| 0 <= x < |b| && b[x] == a[i];
      assert KeyAt(stream, b[x]) in tb;
      var j :| 0 <= j < |b| && FirstForKey(stream, b, j) && KeyAt(stream, b[j]) == k;
      FirstWriterWins(stream, b, j);
      assert a[i] in messages && b[j] in messages;
    }
  }

  lemma AgreeWhenRowsAgree(stream: seq<Message>, messages: set<nat>, a: seq<nat>, b: seq<nat>)
    requires AllReadable(stream, messages) && SameKeySameRow(stream, messages)
    requires Covers(a, messages) && Covers(b, messages)
    ensures SchedulesAgree(stream, a, b)
  {
    CoverIsValid(stream, messages, a);
    CoverIsValid(stream, messages, b);
    RowsInOther(stream, messages, a, b);
    RowsInOther(stream, messages, b, a);
  }

  /** Two schedules that differ only in which of two conflicting messages comes first. */
  lemma ConflictShows(stream: seq<Message>, messages: set<nat>, i: nat, j: nat) returns (a: seq<nat>, b: seq<nat>)
    requires AllReadable(stream, messages) && i in messages && j in messages
    requires KeyAt(stream, i) == KeyAt(stream, j) && RowAt(stream, i) != RowAt(stream, j)
    ensures Covers(a, messages) && Covers(b, messages) && !SchedulesAgree(stream, a, b)
  {
    hide KeyAt, RowAt, TableOf;
    var rest := Enumerate(messages);
    a, b := [i] + rest, [j] + rest;
    CoverIsValid(stream, messages, a);
    CoverIsValid(stream, messages, b);
    assert a[0] == i && b[0] == j;
    assert FirstForKey(stream, a, 0) && FirstForKey(stream, b, 0);
    FirstWriterWins(stream, a, 0);
    FirstWriterWins(stream, b, 0);
  }

  /**
   Confluence, exactly. All delivery schedules that cover the same messages, with any order and repetition, end
   with the same table if and only if messages of the same key have the same row.
   */
  lemma ConfluentIff(stream: seq<Message>, messages: set<nat>)
    requires AllReadable(stream, messages)
    ensures (forall a, b :: Covers(a, messages) && Covers(b, messages) ==> SchedulesAgree(stream, a, b))
            <==> SameKeySameRow(stream, messages)
  {
    hide Readable, KeyAt, RowAt, TableOf, SchedulesAgree, Covers;
    if SameKeySameRow(stream, messages) {
      forall a, b | Covers(a, messages) && Covers(b, messages) ensures SchedulesAgree(stream, a, b) {
        AgreeWhenRowsAgree(stream, messages, a, b);
      }
    } else {
      var i, j :| i in messages && j in messages && KeyAt(stream, i) == KeyAt(stream, j)
                  && RowAt(stream, i) != RowAt(stream, j);
      var a, b := ConflictShows(stream, messages, i, j);
    }
  }

  /** So two runs over the same stream that have processed the same messages have the same table. */
  lemma RunsAgree(one: seq<Action>, two: seq<Action>, messages: set<nat>)
    requires Run(START, one).stream == Run(START, two).stream
    requires Covers(Run(START, one).log, messages) && Covers(Run(START, two).log, messages)
    requires AllReadable(Run(START, one).stream, messages) && SameKeySameRow(Run(START, one).stream, messages)
    ensures Run(START, one).table == Run(START, two).table
  {
    RunKeepsInv(START, one);
    RunKeepsInv(START, two);
    AgreeWhenRowsAgree(Run(START, one).stream, messages, Run(START, one).log, Run(START, two).log);
  }

  /**
   The row of a message that carries its own fields: its step_index if that fits 32 bits, or the stream sequence
   if it does not fit 64; its event_type if that is one of the two that are recognised, and otherwise a thought;
   and the whole payload.
   */
  lemma OwnFieldsBecomeTheRow(stream: seq<Message>, i: nat, step: int, eventType: Option<string>, body: string)
    requires Readable(stream, i) && stream[i].payload == Some(Object(Some(step), eventType, body))
    ensures -TWO31 <= step < TWO31 ==> KeyAt(stream, i).step == step
    ensures -TWO63 <= step < TWO63 ==> (KeyAt(stream, i).step - step) % TWO32 == 0
    ensures (step < -TWO63 || step >= TWO63) && stream[i].info.None? ==> KeyAt(stream, i).step == 0
    ensures (step < -TWO63 || step >= TWO63) && stream[i].info.Some? && stream[i].info.value < TWO31 ==>
              KeyAt(stream, i).step == stream[i].info.value
    ensures KeyAt(stream, i).agentId == Split(stream[i].subject)[2]
    ensures RowAt(stream, i)
            == Row(if eventType == Some("tool_call") then "tool_call"
                   else if eventType == Some("observation") then "observation" else "thought",
                   stream[i].payload)
  {
    NarrowingKeepsResidue(step, AsI32(step));
    if stream[i].info.Some? && stream[i].info.value < TWO31 {
      NarrowingIsInjectiveOnWindows(0, stream[i].info.value, 0);
    }
  }

  /** Messages without a step of their own get distinct, ordered keys from the stream as long as it is short of 2^31. */
  lemma FallbackStepsAreOrdered(j1: Json, j2: Json, s1: nat, s2: nat)
    requires OwnStep(j1).None? && OwnStep(j2).None?
    requires s1 < s2 < TWO31
    ensures 0 <= StepOf(j1, Some(s1)) == s1 < StepOf(j2, Some(s2)) == s2
  {
    NarrowingIsInjectiveOnWindows(0, s1, s1);
    NarrowingIsInjectiveOnWindows(0, s2, s2);
  }
}
