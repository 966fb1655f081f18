/** `resume_agent`: the thought row with the highest step, or a new agent. */
module Resurrection {
  import opened Wrappers
  import opened AgentTraces

  datatype StateJson =
    | NewAgent
    | Unknown(stepIndex: int)
    | Payload(json: Json)

  datatype AgentState = AgentState(agentId: string, stepIndex: int, state: StateJson)

  function NewAgentState(agentId: string): AgentState {
    AgentState(agentId, 0, NewAgent)
  }

  predicate IsThought(table: Traces, k: TraceKey, agentId: string) {
    k in table && k.agentId == agentId && table[k].eventType == "thought"
  }

  /** The steps the WHERE clause lets through. */
  function ThoughtSteps(table: Traces, agentId: string): set<int> {
    set k | k in table && IsThought(table, k, agentId) :: k.step
  }

  predicate IsMax(m: int, s: set<int>) {
    m in s && forall x :: x in s ==> x <= m
  }

  lemma {:induction false} MaxExists(s: set<int>)
    requires s != {}
    ensures exists m :: IsMax(m, s)
    decreases |s|
  {
    assert (forall x :: x !in s) ==> s == {};
    var x :| x in s;
    var rest := s - {x};
    assert forall y :: y in s <==> y == x || y in rest;
    if rest == {} {
      assert IsMax(x, s);
    } else {
      MaxExists(rest);
      var m :| IsMax(m, rest);
      assert IsMax(if m < x then x else m, s);
    }
  }

  /** ORDER BY step_index DESC LIMIT 1 over the steps. */
  function Highest(s: set<int>): (m: int)
    requires s != {}
    ensures IsMax(m, s)
  {
    MaxExists(s);
    var m :| IsMax(m, s);
    m
  }

  function StateOfRow(agentId: string, step: int, row: Row): AgentState {
    AgentState(agentId, step, match row.payload case Some(j) => Payload(j) case None => Unknown(step))
  }

  function ResumeAgent(table: Traces, agentId: string): AgentState {
    var steps := ThoughtSteps(table, agentId);
    if steps == {} then NewAgentState(agentId)
    else
      var step := Highest(steps);
      StateOfRow(agentId, step, table[TraceKey(agentId, step)])
  }

  /**
   The query is a function of the table: any row of the agent that no thought of it exceeds is the answer, its
   payload or a placeholder for a NULL one; and a new agent at step 0 is the answer exactly when there is no
   thought row.
   */
  lemma ResumeIsTheMaximum(table: Traces, agentId: string, k: TraceKey)
    ensures k in table && k.agentId == agentId && table[k].eventType == "thought"
            && (forall o :: o in table && o.agentId == agentId && table[o].eventType == "thought" ==> o.step <= k.step)
            ==> var r := ResumeAgent(table, agentId);
                && r.agentId == agentId && r.stepIndex == k.step
                && (table[k].payload.Some? ==> r.state == Payload(table[k].payload.value))
                && (table[k].payload.None? ==> r.state == Unknown(k.step))
    ensures ResumeAgent(table, agentId).state.NewAgent?
            <==> forall o :: o in table && o.agentId == agentId ==> table[o].eventType != "thought"
    ensures ResumeAgent(table, agentId).state.NewAgent? ==>
              ResumeAgent(table, agentId).agentId == agentId && ResumeAgent(table, agentId).stepIndex == 0
    ensures IsThought(table, k, agentId) ==> k.step <= ResumeAgent(table, agentId).stepIndex
  {
    var steps := ThoughtSteps(table, agentId);
    if IsThought(table, k, agentId) {
      assert k.step in steps;
      assert k == TraceKey(agentId, k.step);
    }
    if steps != {} {
      var m := Highest(steps);
      assert IsThought(table, TraceKey(agentId, m), agentId);
    } else {
      forall o | o in table && o.agentId == agentId ensures table[o].eventType != "thought" {
        assert IsThought(table, o, agentId) ==> o.step in steps;
      }
    }
  }

  /** Rows of other agents, and rows that are no thoughts, do not matter. */
  lemma OtherRowsDoNotMatter(table: Traces, agentId: string, k: TraceKey, row: Row)
    requires k !in table && (k.agentId != agentId || row.eventType != "thought")
    ensures ResumeAgent(table[k := row], agentId) == ResumeAgent(table, agentId)
  {
    var after := table[k := row];
    forall o ensures IsThought(after, o, agentId) <==> IsThought(table, o, agentId) {
    }
    forall x ensures x in ThoughtSteps(after, agentId) <==> x in ThoughtSteps(table, agentId) {
      if x in ThoughtSteps(table, agentId) {
        assert IsThought(after, TraceKey(agentId, x), agentId);
      }
      if x in ThoughtSteps(after, agentId) {
        assert IsThought(table, TraceKey(agentId, x), agentId);
      }
    }
    assert ThoughtSteps(after, agentId) == ThoughtSteps(table, agentId);
  }

  /** Rows are only ever added. */
  predicate Grows(before: Traces, after: Traces) {
    forall k :: k in before ==> k in after && after[k] == before[k]
  }

  /**
   While rows are only added, the step an agent resumes at never decreases, except in one case: it had no
   thought row and the first ones it gets are all negative.
   */
  lemma ResumeIsMonotone(before: Traces, after: Traces, agentId: string)
    requires Grows(before, after)
    ensures ResumeAgent(before, agentId).stepIndex <= ResumeAgent(after, agentId).stepIndex
            <==> ThoughtSteps(before, agentId) != {} || ThoughtSteps(after, agentId) == {}
                 || exists x :: x in ThoughtSteps(after, agentId) && x >= 0
  {
    var old', new' := ThoughtSteps(before, agentId), ThoughtSteps(after, agentId);
    forall x | x in old' ensures x in new' {
      var k :| k in before && IsThought(before, k, agentId) && k.step == x;
      assert IsThought(after, k, agentId);
    }
    if new' != {} {
      assert IsMax(Highest(new'), new');
      if old' != {} {
        assert Highest(old') in new';
      }
    }
  }
}
