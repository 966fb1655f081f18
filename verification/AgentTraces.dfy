/** The `agent_traces` table: one row for each (agent_id, step_index), and the first writer keeps it. */
module AgentTraces {
  import opened Wrappers
  import opened AgentEvents

  datatype EventType = Thought | ToolCall | Observation

  function AsDbStr(t: EventType): string {
    match t
    case Thought => "thought"
    case ToolCall => "tool_call"
    case Observation => "observation"
  }

  /** The two database names that the ingest loop recognises; any other text is a thought. */
  function ParseEventType(s: Option<string>): EventType {
    match s
    case None => Thought
    case Some(text) =>
      if text == "tool_call" then ToolCall else if text == "observation" then Observation else Thought
  }

  /** A payload: what `save_event` writes, or any other object with the two fields ingest looks for. */
  datatype Json =
    | Envelope(event: PendingEvent)
    | Object(stepIndex: Option<int>, eventType: Option<string>, body: string)

  datatype TraceKey = TraceKey(agentId: string, step: int)

  /** The payload column may be NULL. */
  datatype Row = Row(eventType: string, payload: Option<Json>)

  type Traces = map<TraceKey, Row>

  datatype Trace = Trace(agentId: string, stepIndex: int, eventType: EventType, payload: Json)

  function KeyOfTrace(t: Trace): TraceKey {
    TraceKey(t.agentId, t.stepIndex)
  }

  function RowOfTrace(t: Trace): Row {
    Row(AsDbStr(t.eventType), Some(t.payload))
  }

  /** The statement's effect: a duplicate key leaves the table as it is. */
  function Put(table: Traces, t: Trace): Traces {
    if KeyOfTrace(t) in table then table else table[KeyOfTrace(t) := RowOfTrace(t)]
  }

  /** `AgentTrace::insert`: a duplicate-key error counts as success, any other error does not. */
  function Insert(table: Traces, t: Trace, outcome: DbOutcome): (Traces, bool) {
    if outcome.Down? then (table, false) else (Put(table, t), outcome.Healthy?)
  }

  /** The database name determines the type, so the ENUM column loses nothing and ingest reads back what it wrote. */
  lemma DbNamesRoundTrip(t: EventType)
    ensures ParseEventType(Some(AsDbStr(t))) == t
  {
    assert "thought"[0] == 't' && "thought"[1] == 'h' && "tool_call"[1] == 'o' && "observation"[0] == 'o';
  }

  // ---- narrowing ----

  const TWO31: int := 0x8000_0000
  const TWO32: int := 0x1_0000_0000
  const TWO63: int := 0x8000_0000_0000_0000
  const TWO64: int := 0x1_0000_0000_0000_0000

  /** Rust's `as i64` of a u64, and `as i32` of an i64: the low bits, read as two's complement. */
  function AsI64(x: int): int {
    (x + TWO63) % TWO64 - TWO63
  }

  function AsI32(x: int): int {
    (x + TWO31) % TWO32 - TWO31
  }

  /** The narrowing forgets exactly multiples of 2^32. */
  lemma NarrowingKeepsResidue(x: int, y: int)
    ensures AsI32(x) == AsI32(y) <==> (x - y) % TWO32 == 0
    ensures -TWO31 <= AsI32(x) < TWO31
  {
    var a, b := (x + TWO31) / TWO32, (y + TWO31) / TWO32;
    assert x + TWO31 == TWO32 * a + (x + TWO31) % TWO32;
    assert y + TWO31 == TWO32 * b + (y + TWO31) % TWO32;
    if AsI32(x) == AsI32(y) {
      assert x - y == TWO32 * (a - b);
    }
    if (x - y) % TWO32 == 0 {
      var k := (x - y) / TWO32;
      assert x - y == TWO32 * k;
      assert (x + TWO31) % TWO32 - (y + TWO31) % TWO32 == TWO32 * (k - a + b);
      assert k - a + b == 0;
    }
  }

  /** So it is injective on any 2^32 consecutive values, and the identity below 2^31. */
  lemma NarrowingIsInjectiveOnWindows(base: int, x: int, y: int)
    requires base <= x < base + TWO32 && base <= y < base + TWO32
    ensures AsI32(x) == AsI32(y) ==> x == y
    ensures 0 <= x < TWO31 ==> AsI32(AsI64(x)) == x
  {
    NarrowingKeepsResidue(x, y);
  }
}
