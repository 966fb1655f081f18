/** `ingest_agent_trace_stream` as the program has it: fetch a batch, insert each message, then acknowledge it. */
module IngestLoop {
  import opened Wrappers
  import opened AgentEvents
  import opened AgentTraces
  import opened TraceIngest
  import Resurrection

  datatype Error = NatsError | JsonError | SqlxError

  /** One delivery of a message, and what the database and the acknowledgement will do. */
  datatype Delivery = Delivery(i: nat, outcome: DbOutcome, ackSent: bool)

  /** One fetch: what was published since the last one, and what the consumer is given. */
  datatype Fetch = FetchFailed | Batch(published: seq<Message>, deliveries: seq<Delivery>)

  /** The consumer is given only messages of the stream that match its filter. */
  predicate Deliverable(stream: seq<Message>, d: Delivery) {
    d.i < |stream| && MatchesFilter(stream[d.i].subject)
  }

  predicate AllDeliverable(stream: seq<Message>, fetches: seq<Fetch>)
    decreases |fetches|
  {
    fetches != [] && fetches[0].Batch? ==>
      && (forall k :: 0 <= k < |fetches[0].deliveries| ==>
            Deliverable(stream + fetches[0].published, fetches[0].deliveries[k]))
      && AllDeliverable(stream + fetches[0].published, fetches[1..])
  }

  /** What one delivery does, as steps of the machine, and the error that ends the loop. */
  function Handle(s: Ingest, d: Delivery): (Ingest, Option<Error>) {
    if !Readable(s.stream, d.i) then (s, Some(JsonError))
    else
      var inserted := Step(s, Process(d.i, d.outcome));
      if !d.outcome.Healthy? then (inserted, Some(SqlxError))
      else if !d.ackSent then (inserted, Some(NatsError))
      else (Step(inserted, Ack(d.i)), None)
  }

  function HandleAll(s: Ingest, ds: seq<Delivery>): (Ingest, Option<Error>)
    decreases |ds|
  {
    if ds == [] then (s, None)
    else
      var (s', e) := Handle(s, ds[0]);
      if e.Some? then (s', e) else HandleAll(s', ds[1..])
  }

  function IngestAll(s: Ingest, fetches: seq<Fetch>): (Ingest, Option<Error>)
    decreases |fetches|
  {
    if fetches == [] then (s, None)
    else if fetches[0].FetchFailed? then (s, Some(NatsError))
    else
      var (s', e) := HandleAll(s.(stream := s.stream + fetches[0].published), fetches[0].deliveries);
      if e.Some? then (s', e) else IngestAll(s', fetches[1..])
  }

  lemma {:induction false} RunConcat(s: Ingest, a: seq<Action>, b: seq<Action>)
    ensures TraceIngest.Run(s, a + b) == TraceIngest.Run(TraceIngest.Run(s, a), b)
    decreases |a|
  {
    hide Step;
    if a == [] {
      assert a + b == b;
    } else {
      assert (a + b)[0] == a[0] && (a + b)[1..] == a[1..] + b;
      RunConcat(Step(s, a[0]), a[1..], b);
    }
  }

  // ---- what the loop does to the table and the acknowledgements ----

  /** The message decodes, its insert succeeds, and its acknowledgement is sent. */
  predicate Succeeds(stream: seq<Message>, d: Delivery) {
    d.i < |stream| && stream[d.i].payload.Some? && d.outcome == Healthy && d.ackSent
  }

  function Indices(ds: seq<Delivery>): seq<nat> {
    if ds == [] then [] else [ds[0].i] + Indices(ds[1..])
  }

  lemma {:induction false} IndicesConcat(a: seq<Delivery>, b: seq<Delivery>)
    ensures Indices(a + b) == Indices(a) + Indices(b)
    decreases |a|
  {
    if a == [] {
      assert a + b == b;
    } else {
      assert (a + b)[1..] == a[1..] + b;
      IndicesConcat(a[1..], b);
    }
  }

  /** What has happened once the first `k` of `ds` succeeded and the next, if there is one, did not. */
  ghost predicate Did(s: Ingest, ds: seq<Delivery>, k: nat, s': Ingest)
    requires k <= |ds|
  {
    var stream, done := s'.stream, Indices(ds[..k]);
    var stored := k < |ds| && ds[k].i < |stream| && stream[ds[k].i].payload.Some? && ds[k].outcome != Down;
    && s'.acked == s.acked + (set i | i in done)
    && s'.log == s.log + done + (if stored then [ds[k].i] else [])
    && (forall i :: i in done ==> Readable(stream, i) && KeyAt(stream, i) in s'.table)
    && Resurrection.Grows(s.table, s'.table)
  }

  function ErrorOf(stream: seq<Message>, d: Delivery): Error {
    if d.i >= |stream| || stream[d.i].payload.None? then JsonError
    else if d.outcome != Healthy then SqlxError
    else NatsError
  }

  lemma HandleDoes(s: Ingest, d: Delivery)
    requires Deliverable(s.stream, d)
    ensures var (s', e) := Handle(s, d);
            && s'.stream == s.stream
            && Did(s, [d], if Succeeds(s.stream, d) then 1 else 0, s')
            && e == if Succeeds(s.stream, d) then None else Some(ErrorOf(s.stream, d))
  {
    assert [d][..1] == [d] && [d][1..] == [] && [d][..0] == [];
    assert Indices([d]) == [d.i];
    hide MatchesFilter;
  }

  lemma DidThen(s: Ingest, a: seq<Delivery>, s1: Ingest, b: seq<Delivery>, k: nat, s2: Ingest)
    requires k <= |b| && s1.stream <= s2.stream
    requires Did(s, a, |a|, s1) && Did(s1, b, k, s2)
    ensures Did(s, a + b, |a| + k, s2)
  {
    hide MatchesFilter, TraceOf;
    assert a[..|a|] == a && (a + b)[..|a| + k] == a + b[..k];
    IndicesConcat(a, b[..k]);
    assert k < |b| ==> (a + b)[|a| + k] == b[k];
  }

  lemma DidNoMore(s: Ingest, a: seq<Delivery>, b: seq<Delivery>, k: nat, s': Ingest)
    requires k < |a| && Did(s, a, k, s')
    ensures Did(s, a + b, k, s')
  {
    assert (a + b)[..k] == a[..k] && (a + b)[k] == a[k];
  }

  /** The first `k` of `ds` succeed and the next, if there is one, does not. */
  predicate FailsFirstAt(stream: seq<Message>, ds: seq<Delivery>, k: nat) {
    && k <= |ds|
    && (forall j :: 0 <= j < k ==> Succeeds(stream, ds[j]))
    && (k < |ds| ==> !Succeeds(stream, ds[k]))
  }

  lemma {:induction false} BatchDoes(s: Ingest, ds: seq<Delivery>, k: nat)
    requires forall j :: 0 <= j < |ds| ==> Deliverable(s.stream, ds[j])
    requires FailsFirstAt(s.stream, ds, k)
    ensures var (s', e) := HandleAll(s, ds);
            && s'.stream == s.stream
            && Did(s, ds, k, s')
            && e == if k == |ds| then None else Some(ErrorOf(s.stream, ds[k]))
    decreases |ds|
  {
    hide Deliverable, Handle, Succeeds;
    if ds == [] {
      assert ds[..0] == [];
    } else {
      var d, rest := ds[0], ds[1..];
      assert ds == [d] + rest;
      HandleDoes(s, d);
      var (s1, e) := Handle(s, d);
      if k == 0 {
        hide Did;
        DidNoMore(s, [d], rest, 0, s1);
      } else {
        hide Did;
        assert FailsFirstAt(s.stream, rest, k - 1);
        BatchDoes(s1, rest, k - 1);
        DidThen(s, [d], s1, rest, k - 1, HandleAll(s1, rest).0);
      }
    }
  }

  /** Everything the fetches deliver before one of them fails, and the stream that they leave. */
  function Delivered(fetches: seq<Fetch>): seq<Delivery> {
    if fetches == [] || fetches[0].FetchFailed? then [] else fetches[0].deliveries + Delivered(fetches[1..])
  }

  function StreamAfter(stream: seq<Message>, fetches: seq<Fetch>): seq<Message>
    decreases |fetches|
  {
    if fetches == [] || fetches[0].FetchFailed? then stream
    else StreamAfter(stream + fetches[0].published, fetches[1..])
  }

  lemma {:induction false} StreamOnlyGrows(stream: seq<Message>, fetches: seq<Fetch>)
    ensures stream <= StreamAfter(stream, fetches)
    decreases |fetches|
  {
    if fetches == [] || fetches[0].FetchFailed? {
    } else {
      StreamOnlyGrows(stream + fetches[0].published, fetches[1..]);
    }
  }

  /** Every state the loop can be in is a state of the machine, so what holds there holds here. */
  lemma {:induction false} HandleAllIsARun(s: Ingest, ds: seq<Delivery>) returns (actions: seq<Action>)
    ensures TraceIngest.Run(s, actions) == HandleAll(s, ds).0
    decreases |ds|
  {
    hide Step;
    if ds == [] {
      actions := [];
    } else {
      var d := ds[0];
      var s1 := Step(s, Process(d.i, d.outcome));
      var (s', e) := Handle(s, d);
      var head := if !Readable(s.stream, d.i) then []
                  else if e.Some? then [Process(d.i, d.outcome)] else [Process(d.i, d.outcome), Ack(d.i)];
      assert [Process(d.i, d.outcome), Ack(d.i)][1..] == [Ack(d.i)];
      assert TraceIngest.Run(s1, [Ack(d.i)]) == TraceIngest.Run(Step(s1, Ack(d.i)), []);
      assert TraceIngest.Run(s1, []) == s1;
      assert TraceIngest.Run(s, head) == s';
      if e.Some? {
        actions := head;
      } else {
        var tail := HandleAllIsARun(s', ds[1..]);
        RunConcat(s, head, tail);
        actions := head + tail;
      }
    }
  }

  lemma {:induction false} PublishAllIsARun(s: Ingest, published: seq<Message>) returns (actions: seq<Action>)
    ensures TraceIngest.Run(s, actions) == s.(stream := s.stream + published)
    decreases |published|
  {
    if published == [] {
      actions := [];
      assert s.stream + [] == s.stream;
    } else {
      var tail := PublishAllIsARun(Step(s, Publish(published[0])), published[1..]);
      assert s.stream + published == s.stream + [published[0]] + published[1..];
      actions := [Publish(published[0])] + tail;
      assert actions[1..] == tail;
    }
  }

  lemma {:induction false} IngestAllIsARun(s: Ingest, fetches: seq<Fetch>) returns (actions: seq<Action>)
    ensures TraceIngest.Run(s, actions) == IngestAll(s, fetches).0
    decreases |fetches|
  {
    if fetches == [] || fetches[0].FetchFailed? {
      actions := [];
    } else {
      hide Step, HandleAll;
      var s1 := s.(stream := s.stream + fetches[0].published);
      var published := PublishAllIsARun(s, fetches[0].published);
      var handled := HandleAllIsARun(s1, fetches[0].deliveries);
      RunConcat(s, published, handled);
      actions := published + handled;
      var (s', e) := HandleAll(s1, fetches[0].deliveries);
      if e.None? {
        var tail := IngestAllIsARun(s', fetches[1..]);
        RunConcat(s, actions, tail);
        actions := actions + tail;
      }
    }
  }

  lemma OnlyStreamDiffers(s: Ingest, t: Ingest, ds: seq<Delivery>, k: nat, s': Ingest)
    requires t == s.(stream := t.stream) && k <= |ds| && Did(t, ds, k, s')
    ensures Did(s, ds, k, s')
  {
  }

  /** A batch is judged by the stream it came from or by any later one. */
  lemma FirstFailureInParts(early: seq<Message>, late: seq<Message>, ds: seq<Delivery>, rest: seq<Delivery>,
                            k: nat)
    requires early <= late && FailsFirstAt(late, ds + rest, k)
    requires forall j :: 0 <= j < |ds| ==> Deliverable(early, ds[j])
    ensures k <= |ds| + |rest|
    ensures if k < |ds| then FailsFirstAt(early, ds, k) && ErrorOf(early, ds[k]) == ErrorOf(late, ds[k])
            else FailsFirstAt(early, ds, |ds|) && FailsFirstAt(late, rest, k - |ds|)
  {
    hide MatchesFilter;
    forall j | 0 <= j < |ds| ensures Succeeds(early, ds[j]) <==> Succeeds(late, (ds + rest)[j]) {
      assert Deliverable(early, ds[j]);
    }
    assert forall j :: 0 <= j < |rest| ==> rest[j] == (ds + rest)[|ds| + j];
  }

  lemma {:induction false} HandleAllKeepsStream(s: Ingest, ds: seq<Delivery>)
    ensures HandleAll(s, ds).0.stream == s.stream
    decreases |ds|
  {
    if ds == [] {
    } else {
      HandleAllKeepsStream(Handle(s, ds[0]).0, ds[1..]);
    }
  }

  lemma {:induction false} IngestStreamGrows(s: Ingest, fetches: seq<Fetch>)
    ensures s.stream <= IngestAll(s, fetches).0.stream
    decreases |fetches|
  {
    if fetches == [] || fetches[0].FetchFailed? {
    } else {
      var s0 := s.(stream := s.stream + fetches[0].published);
      HandleAllKeepsStream(s0, fetches[0].deliveries);
      IngestStreamGrows(HandleAll(s0, fetches[0].deliveries).0, fetches[1..]);
    }
  }

  predicate FetchFails(fetches: seq<Fetch>) {
    exists f :: 0 <= f < |fetches| && fetches[f].FetchFailed?
  }

  ghost predicate StoppedAt(s: Ingest, ds: seq<Delivery>, k: nat, fails: bool, stream: seq<Message>,
                            s': Ingest, e: Option<Error>)
    requires k <= |ds|
  {
    && s'.stream <= stream
    && (e.None? ==> s'.stream == stream)
    && Did(s, ds, k, s')
    && e == if k < |ds| then Some(ErrorOf(stream, ds[k])) else if fails then Some(NatsError) else None
  }

  /** The first batch, from `s` with what was published before it, and then the other fetches. */
  lemma BatchThenRest(s: Ingest, s0: Ingest, ds: seq<Delivery>, rest: seq<Delivery>, k: nat, fails: bool,
                      stream: seq<Message>, s1: Ingest, s2: Ingest, e2: Option<Error>)
    requires s0 == s.(stream := s0.stream) && s0.stream <= stream && |ds| <= k <= |ds| + |rest|
    requires s1.stream == s0.stream <= s2.stream && Did(s0, ds, |ds|, s1)
    requires StoppedAt(s1, rest, k - |ds|, fails, stream, s2, e2)
    ensures StoppedAt(s, ds + rest, k, fails, stream, s2, e2)
  {
    DidThen(s0, ds, s1, rest, k - |ds|, s2);
    OnlyStreamDiffers(s, s0, ds + rest, k, s2);
    hide Did, ErrorOf;
  }

  lemma BatchStops(s: Ingest, s0: Ingest, ds: seq<Delivery>, rest: seq<Delivery>, k: nat, fails: bool,
                   stream: seq<Message>, s1: Ingest)
    requires s0 == s.(stream := s0.stream) && s0.stream <= stream && k < |ds|
    requires s1.stream == s0.stream && Did(s0, ds, k, s1)
    ensures StoppedAt(s, ds + rest, k, fails, stream, s1, Some(ErrorOf(stream, ds[k])))
  {
    DidNoMore(s0, ds, rest, k, s1);
    OnlyStreamDiffers(s, s0, ds + rest, k, s1);
    hide Did, ErrorOf;
  }

  lemma FetchFailsLater(fetches: seq<Fetch>)
    requires fetches != [] && fetches[0].Batch?
    ensures FetchFails(fetches) == FetchFails(fetches[1..])
  {
    assert forall f :: 0 <= f < |fetches| - 1 ==> fetches[1..][f] == fetches[f + 1];
  }

  lemma NothingDelivered(s: Ingest, fetches: seq<Fetch>, k: nat)
    requires fetches == [] || fetches[0].FetchFailed?
    requires FailsFirstAt(StreamAfter(s.stream, fetches), Delivered(fetches), k)
    ensures var (s', e) := IngestAll(s, fetches);
            StoppedAt(s, Delivered(fetches), k, FetchFails(fetches), StreamAfter(s.stream, fetches), s', e)
  {
    assert Delivered(fetches)[..0] == [];
  }

  /** The first fetch of a schedule, taken apart. */
  lemma FirstFetch(s: Ingest, fetches: seq<Fetch>)
    returns (s0: Ingest, ds: seq<Delivery>, rest: seq<Delivery>, stream: seq<Message>)
    requires fetches != [] && fetches[0].Batch? && AllDeliverable(s.stream, fetches)
    ensures s0 == s.(stream := s.stream + fetches[0].published) && s0.stream <= stream
    ensures forall j :: 0 <= j < |ds| ==> Deliverable(s0.stream, ds[j])
    ensures AllDeliverable(s0.stream, fetches[1..])
    ensures Delivered(fetches) == ds + rest && rest == Delivered(fetches[1..])
    ensures StreamAfter(s.stream, fetches) == stream == StreamAfter(s0.stream, fetches[1..])
    ensures FetchFails(fetches) == FetchFails(fetches[1..])
    ensures var (s1, e) := HandleAll(s0, ds);
            IngestAll(s, fetches) == if e.Some? then (s1, e) else IngestAll(s1, fetches[1..])
  {
    s0 := s.(stream := s.stream + fetches[0].published);
    ds, rest, stream := fetches[0].deliveries, Delivered(fetches[1..]), StreamAfter(s0.stream, fetches[1..]);
    StreamOnlyGrows(s0.stream, fetches[1..]);
    FetchFailsLater(fetches);
  }

  /**
   What ingest does, over every schedule of fetches. The deliveries before the first that does not decode, or is
   not inserted, or whose acknowledgement is not sent, have their rows and are acknowledged. That first one
   decides the error and is not acknowledged; nothing after it has any effect.
   */
  lemma {:induction false} IngestStopsAtFirstFailure(s: Ingest, fetches: seq<Fetch>, k: nat)
    requires AllDeliverable(s.stream, fetches)
    requires FailsFirstAt(StreamAfter(s.stream, fetches), Delivered(fetches), k)
    ensures var (s', e) := IngestAll(s, fetches);
            StoppedAt(s, Delivered(fetches), k, FetchFails(fetches), StreamAfter(s.stream, fetches), s', e)
    decreases |fetches|
  {
    hide IngestAll, StoppedAt, Did, ErrorOf, FailsFirstAt, HandleAll, AllDeliverable;
    hide Delivered, StreamAfter, FetchFails;
    if fetches == [] || fetches[0].FetchFailed? {
      NothingDelivered(s, fetches, k);
    } else {
      var tail := fetches[1..];
      var s0, ds, rest, stream := FirstFetch(s, fetches);
      FirstFailureInParts(s0.stream, stream, ds, rest, k);
      var s1 := HandleAll(s0, ds).0;
      if k < |ds| {
        BatchDoes(s0, ds, k);
        BatchStops(s, s0, ds, rest, k, FetchFails(tail), stream, s1);
      } else {
        BatchDoes(s0, ds, |ds|);
        IngestStopsAtFirstFailure(s1, tail, k - |ds|);
        var (s2, e2) := IngestAll(s1, tail);
        IngestStreamGrows(s1, tail);
        BatchThenRest(s, s0, ds, rest, k, FetchFails(tail), stream, s1, s2, e2);
      }
    }
  }

  class IngestTask {
    var stream: seq<Message>
    var table: Traces
    var acked: set<nat>
    ghost var unacked: set<nat>
    ghost var log: seq<nat>

    ghost function View(): Ingest
      reads this
    {
      Ingest.Ingest(stream, table, unacked, acked, log)
    }

    constructor (ghost s: Ingest, stream: seq<Message>, table: Traces, acked: set<nat>)
      requires s.stream == stream && s.table == table && s.acked == acked
      ensures View() == s
    {
      this.stream, this.table, this.acked := stream, table, acked;
      unacked, log := s.unacked, s.log;
    }

    /** `AgentTrace::insert` */
    method InsertTrace(t: Trace, outcome: DbOutcome) returns (ok: bool)
      modifies this`table
      ensures (table, ok) == Insert(old(table), t, outcome)
    {
      if outcome.Down? {
        return false;
      }
      if KeyOfTrace(t) !in table {
        table := table[KeyOfTrace(t) := RowOfTrace(t)];
      }
      return outcome.Healthy?;
    }

    /** The body of the inner loop: decode, derive the row, insert, and acknowledge only after the insert succeeded. */
    method HandleMessage(d: Delivery) returns (error: Option<Error>)
      requires Deliverable(stream, d)
      modifies this`table, this`acked, this`unacked, this`log
      ensures (View(), error) == Handle(old(View()), d)
    {
      var msg := stream[d.i];
      if msg.payload.None? {
        return Some(JsonError);
      }
      var agentId := AgentIdOf(msg.subject);
      var payload := msg.payload.value;
      var stepIndex := StepOf(payload, msg.info);
      var eventType := ParseEventType(if payload.Object? then payload.eventType else None);
      var trace := Trace(agentId, stepIndex, eventType, payload);
      var ok := InsertTrace(trace, d.outcome);
      if !d.outcome.Down? {
        log := log + [d.i];
      }
      if !ok {
        return Some(SqlxError);
      }
      unacked := unacked + {d.i};
      if !d.ackSent {
        return Some(NatsError);
      }
      acked, unacked := acked + {d.i}, unacked - {d.i};
      return None;
    }

    /** The two loops, over any finite part of a schedule. Any error ends the function. */
    method IngestStream(fetches: seq<Fetch>) returns (error: Option<Error>)
      requires AllDeliverable(stream, fetches)
      modifies this
      ensures (View(), error) == IngestAll(old(View()), fetches)
    {
      ghost var goal := IngestAll(View(), fetches);
      var f := 0;
      while f < |fetches|
        invariant 0 <= f <= |fetches| && AllDeliverable(stream, fetches[f..])
        invariant IngestAll(View(), fetches[f..]) == goal
      {
        assert fetches[f..][0] == fetches[f] && fetches[f..][1..] == fetches[f + 1..];
        if fetches[f].FetchFailed? {
          return Some(NatsError);
        }
        stream := stream + fetches[f].published;
        var batch := fetches[f].deliveries;
        ghost var held := stream;
        ghost var batchGoal := HandleAll(View(), batch);
        var k := 0;
        while k < |batch|
          invariant 0 <= k <= |batch| && stream == held
          invariant HandleAll(View(), batch[k..]) == batchGoal
        {
          assert batch[k..][0] == batch[k] && batch[k..][1..] == batch[k + 1..];
          error := HandleMessage(batch[k]);
          if error.Some? {
            return;
          }
          k := k + 1;
        }
        f := f + 1;
      }
      return None;
    }
  }
}
