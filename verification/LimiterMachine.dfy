/**
 `RateLimiter::wait` run by any number of tasks, one atomic operation at a time. Its two atomics are
 `windowStart` and `count`; every load, store and compare-exchange is a step of its own, so all
 interleavings, the reset race included, are runs of this machine. Memory is sequentially consistent.
 */
module LimiterMachine {
  const U32_MAX: nat := 0xFFFF_FFFF
  const U64: nat := 0x1_0000_0000_0000_0000

  /** Where a task is in `wait`, with the locals that are live there. */
  datatype Task =
    | Idle                                // not in a call
    | AtTop                               // about to read the clock
    | GotNow(now: nat)                    // about to load windowStart
    | Differs(now: nat)                   // about to store windowStart
    | StoredWindow(now: nat)              // about to store count
    | Same(now: nat)                      // about to load count
    | Loaded(now: nat, c: nat)            // about to compare-exchange c with c + 1
    | Full(now: nat)                      // about to read the clock in milliseconds
    | Sleeping(now: nat, wakeMs: nat)

  /** History: a counter reset, the second its task had read, and the second in which it happened. */
  datatype Reset = Reset(reading: nat, at: nat)

  datatype Limiter = Limiter(
    limit: nat,
    clockMs: nat,
    windowStart: nat,
    count: nat,
    tasks: seq<Task>,
    since: nat,                // history: admissions since the last store to count
    resets: seq<Reset>,        // history
    admissions: seq<nat>)      // history: the second of each admission

  datatype Action =
    | Step(i: nat)
    | Advance(ms: nat)         // time passes
    | SetClock(ms: nat)        // the wall clock is set, possibly back

  function Init(n: nat, limit: nat, clockMs: nat): Limiter {
    Limiter(limit, clockMs, 0, 0, seq(n, i => Idle), 0, [], [])
  }

  function Second(s: Limiter): nat {
    s.clockMs / 1000
  }

  /** `1001 - (now_ms % 1000)`, after the cast of the 128-bit millisecond count to 64 bits. */
  function SleepMs(ms: nat): nat {
    1001 - (ms % U64) % 1000
  }

  function Go(s: Limiter, i: nat, t: Task): Limiter
    requires i < |s.tasks|
  {
    s.(tasks := s.tasks[i := t])
  }

  function Admit(s: Limiter): Limiter {
    s.(admissions := s.admissions + [Second(s)])
  }

  function StepTask(s: Limiter, i: nat): Limiter
    requires i < |s.tasks|
  {
    match s.tasks[i]
    case Idle => if s.limit == U32_MAX then Admit(s) else Go(s, i, AtTop)
    case AtTop => Go(s, i, GotNow(Second(s)))
    case GotNow(now) => Go(s, i, if now != s.windowStart then Differs(now) else Same(now))
    case Differs(now) => Go(s, i, StoredWindow(now)).(windowStart := now)
    case StoredWindow(now) =>
      Admit(Go(s, i, Idle)).(count := 1, since := 1, resets := s.resets + [Reset(now, Second(s))])
    case Same(now) => Go(s, i, if s.count < s.limit then Loaded(now, s.count) else Full(now))
    case Loaded(now, c) =>
      if s.count == c then Admit(Go(s, i, Idle)).(count := c + 1, since := s.since + 1) else Go(s, i, AtTop)
    case Full(now) => Go(s, i, Sleeping(now, s.clockMs + SleepMs(s.clockMs)))
    case Sleeping(now, wakeMs) => Go(s, i, AtTop)
  }

  function Next(s: Limiter, a: Action): Limiter {
    match a
    case Step(i) => if i < |s.tasks| then StepTask(s, i) else s
    case Advance(ms) => s.(clockMs := s.clockMs + ms)
    case SetClock(ms) => s.(clockMs := ms)
  }

  function Run(s: Limiter, actions: seq<Action>): Limiter
    decreases |actions|
  {
    if actions == [] then s else Run(Next(s, actions[0]), actions[1..])
  }

  /** The most the counter can reach: a reset claims a slot even when the limit is 0. */
  function Cap(limit: nat): nat {
    if limit == 0 then 1 else limit
  }

  /** The slots of `k` full windows. */
  function Quota(limit: nat, k: nat): nat {
    Cap(limit) * k
  }

  lemma QuotaStep(limit: nat, k: nat)
    ensures Quota(limit, 0) == 0
    ensures Quota(limit, k + 1) == Quota(limit, k) + Cap(limit)
  {
  }

  // ---- the counter, in every interleaving and under any clock ----

  predicate CounterInv(s: Limiter) {
    && s.limit < U32_MAX
    && s.since == s.count
    && s.count <= Cap(s.limit)
    && |s.admissions| <= Quota(s.limit, |s.resets|) + s.count
    && forall i :: 0 <= i < |s.tasks| && s.tasks[i].Loaded? ==> s.tasks[i].c < s.limit
  }

  lemma NextKeepsCounter(s: Limiter, a: Action)
    requires CounterInv(s)
    ensures CounterInv(Next(s, a))
    ensures Next(s, a).limit == s.limit
  {
    hide Quota, SleepMs;
    QuotaStep(s.limit, |s.resets|);
  }

  lemma {:induction false} RunKeepsCounter(s: Limiter, actions: seq<Action>)
    requires CounterInv(s)
    ensures CounterInv(Run(s, actions)) && Run(s, actions).limit == s.limit
    decreases |actions|
  {
    hide Next, CounterInv;
    if actions == [] {
    } else {
      NextKeepsCounter(s, actions[0]);
      RunKeepsCounter(Next(s, actions[0]), actions[1..]);
    }
  }

  /**
   In every run of any number of tasks, the counter is exactly the number of admissions since its last reset
   and never above max(1, limit), so no slot is counted twice, `c + 1` stays a u32, and the whole run admits at
   most max(1, limit) for each reset, and once before the first.
   */
  lemma CounterIsExact(n: nat, limit: nat, clockMs: nat, actions: seq<Action>)
    requires limit < U32_MAX
    ensures var s := Run(Init(n, limit, clockMs), actions);
            && s.since == s.count <= Cap(limit) <= U32_MAX
            && |s.admissions| <= Quota(limit, 1 + |s.resets|)
            && forall i :: 0 <= i < |s.tasks| && s.tasks[i].Loaded? ==> s.tasks[i].c + 1 <= limit
  {
    QuotaStep(limit, 0);
    RunKeepsCounter(Init(n, limit, clockMs), actions);
    hide Quota;
    QuotaStep(limit, |Run(Init(n, limit, clockMs), actions).resets|);
  }

  // ---- a call returns only with a slot ----

  /** The tasks that are inside a call of `wait`. */
  function Inside(tasks: seq<Task>): nat {
    if tasks == [] then 0 else Inside(tasks[..|tasks| - 1]) + (if tasks[|tasks| - 1] == Idle then 0 else 1)
  }

  lemma {:induction false} InsideUpdate(tasks: seq<Task>, i: nat, x: Task)
    requires i < |tasks|
    ensures Inside(tasks[i := x]) + (if tasks[i] == Idle then 0 else 1)
            == Inside(tasks) + (if x == Idle then 0 else 1)
  {
    var last := |tasks| - 1;
    if i == last {
      assert tasks[i := x][..last] == tasks[..last];
    } else {
      assert tasks[i := x][..last] == tasks[..last][i := x];
      InsideUpdate(tasks[..last], i, x);
    }
  }

  lemma {:induction false} NobodyInside(tasks: seq<Task>)
    requires forall i :: 0 <= i < |tasks| ==> tasks[i] == Idle
    ensures Inside(tasks) == 0
  {
    if tasks == [] {
    } else {
      NobodyInside(tasks[..|tasks| - 1]);
    }
  }

  /**
   In every interleaving, the step that returns from a call is the step that admits it, once, in the second the
   clock shows; no other step admits. A call with no limit is admitted by its first step.
   */
  lemma StepReturnsWithSlot(s: Limiter, i: nat)
    requires i < |s.tasks|
    ensures var s' := Next(s, Step(i));
            && |s'.tasks| == |s.tasks|
            && (forall j :: 0 <= j < |s.tasks| && j != i ==> s'.tasks[j] == s.tasks[j])
            && (s'.admissions == s.admissions + [s.clockMs / 1000] || s'.admissions == s.admissions)
            && (s'.admissions != s.admissions
                <==> s'.tasks[i] == Idle && (s.tasks[i] != Idle || s.limit == 0xFFFF_FFFF))
            && (s.limit == 0xFFFF_FFFF && s.tasks[i] == Idle ==> s'.tasks[i] == Idle)
  {
    hide SleepMs;
    assert |s.admissions + [s.clockMs / 1000]| == |s.admissions| + 1;
  }

  /** The calls that `actions` begin: the steps of a task that is outside. */
  function Begun(s: Limiter, actions: seq<Action>): nat
    decreases |actions|
  {
    if actions == [] then 0
    else
      var a := actions[0];
      (if a.Step? && a.i < |s.tasks| && s.tasks[a.i] == Idle then 1 else 0) + Begun(Next(s, a), actions[1..])
  }

  lemma StepAccountsForCalls(s: Limiter, a: Action)
    ensures var s' := Next(s, a);
            var begins := a.Step? && a.i < |s.tasks| && s.tasks[a.i] == Idle;
            |s.admissions| + Inside(s.tasks) + (if begins then 1 else 0) == |s'.admissions| + Inside(s'.tasks)
  {
    if a.Step? && a.i < |s.tasks| {
      var s' := Next(s, a);
      StepReturnsWithSlot(s, a.i);
      InsideUpdate(s.tasks, a.i, s'.tasks[a.i]);
      assert s'.tasks == s.tasks[a.i := s'.tasks[a.i]];
    }
  }

  lemma {:induction false} RunAccountsForCalls(s: Limiter, actions: seq<Action>)
    ensures var s' := Run(s, actions);
            |s.admissions| + Inside(s.tasks) + Begun(s, actions) == |s'.admissions| + Inside(s'.tasks)
    decreases |actions|
  {
    if actions == [] {
    } else {
      hide Next;
      StepAccountsForCalls(s, actions[0]);
      RunAccountsForCalls(Next(s, actions[0]), actions[1..]);
    }
  }

  /** Over every run, each call that was begun has been admitted exactly once or is still inside. */
  lemma CallsAreAdmittedOrInside(n: nat, limit: nat, clockMs: nat, actions: seq<Action>)
    ensures var s := Init(n, limit, clockMs);
            var s' := Run(s, actions);
            Begun(s, actions) == |s'.admissions| + Inside(s'.tasks)
  {
    NobodyInside(Init(n, limit, clockMs).tasks);
    RunAccountsForCalls(Init(n, limit, clockMs), actions);
  }

  // ---- the documented reset race ----

  /** Two tasks that both found the window old: each admission is real, the counter shows one. */
  lemma TwoResetsCountOnce(s: Limiter, i: nat, j: nat, t: nat)
    requires i < |s.tasks| && j < |s.tasks| && i != j
    requires s.tasks[i] == Differs(t) && s.tasks[j] == Differs(t)
    ensures var s' := Run(s, [Step(i), Step(j), Step(i), Step(j)]);
            && s'.admissions == s.admissions + [Second(s), Second(s)]
            && s'.count == 1 && s'.windowStart == t
  {
    var a := [Step(i), Step(j), Step(i), Step(j)];
    assert a[1..] == [Step(j), Step(i), Step(j)] && a[1..][1..] == [Step(i), Step(j)];
    assert a[1..][1..][1..] == [Step(j)] && [Step(j)][1..] == [];
    var s1 := Next(s, Step(i));
    var s2 := Next(s1, Step(j));
    var s3 := Next(s2, Step(i));
    var s4 := Next(s3, Step(j));
    hide Next;
    assert Run(s, a) == Run(s1, a[1..]) == Run(s2, [Step(i), Step(j)]) == Run(s3, [Step(j)]) == Run(s4, []);
  }

  /** Every task takes one step. */
  function Round(n: nat): seq<Action> {
    seq(n, (i: nat) => Step(i))
  }

  function Rounds(n: nat, k: nat): seq<Action> {
    if k == 0 then [] else Rounds(n, k - 1) + Round(n)
  }

  lemma {:induction false} RunConcat(s: Limiter, a: seq<Action>, b: seq<Action>)
    ensures Run(s, a + b) == Run(Run(s, a), b)
    decreases |a|
  {
    if a == [] {
      assert a + b == b;
    } else {
      assert (a + b)[1..] == a[1..] + b;
      RunConcat(Next(s, a[0]), a[1..], b);
    }
  }

  /** The way of a task that finds an old window. */
  function Onward(task: Task, t: nat): Task {
    match task
    case Idle => AtTop
    case AtTop => GotNow(t)
    case GotNow(_) => Differs(t)
    case Differs(_) => StoredWindow(t)
    case _ => Idle
  }

  /** All tasks of `s` are at `task`, on that way, in second `t`. */
  predicate InStep(s: Limiter, task: Task, t: nat) {
    && s.limit < U32_MAX && Second(s) == t
    && ((s.windowStart != t && (task == Idle || task == AtTop || task == GotNow(t)))
        || task == Differs(t) || task == StoredWindow(t))
    && forall i :: 0 <= i < |s.tasks| ==> s.tasks[i] == task
  }

  /** What `s` becomes when the first `k` of its tasks, all at `task`, take one step. */
  function Stepped(s: Limiter, task: Task, t: nat, k: nat): Limiter {
    var s' := s.(tasks := seq(|s.tasks|, i => if i < k then Onward(task, t) else task));
    if k == 0 then s'
    else if task.Differs? then s'.(windowStart := t)
    else if task.StoredWindow? then
      s'.(count := 1, since := 1, resets := s.resets + seq(k, i => Reset(t, t)),
          admissions := s.admissions + seq(k, i => t))
    else s'
  }

  lemma OneMoreSteps(s: Limiter, task: Task, t: nat, k: nat)
    requires InStep(s, task, t) && k < |s.tasks|
    ensures Next(Stepped(s, task, t, k), Step(k)) == Stepped(s, task, t, k + 1)
  {
    var before, after := Stepped(s, task, t, k), Stepped(s, task, t, k + 1);
    assert before.tasks[k] == task;
    assert before.tasks[k := Onward(task, t)] == after.tasks;
    assert seq(k, i => t) + [t] == seq(k + 1, i => t);
    assert seq(k, i => Reset(t, t)) + [Reset(t, t)] == seq(k + 1, i => Reset(t, t));
    if task.StoredWindow? {
      assert before.admissions + [t] == after.admissions && before.resets + [Reset(t, t)] == after.resets;
    }
  }

  lemma RoundKeepsStep(s: Limiter, task: Task, t: nat)
    requires InStep(s, task, t) && !task.StoredWindow? && s.tasks != []
    ensures InStep(Stepped(s, task, t, |s.tasks|), Onward(task, t), t)
  {
  }

  lemma {:induction false} RoundSteps(s: Limiter, task: Task, t: nat, k: nat)
    requires InStep(s, task, t) && k <= |s.tasks|
    ensures Run(s, Round(k)) == Stepped(s, task, t, k)
  {
    if k == 0 {
      assert s.tasks == Stepped(s, task, t, 0).tasks;
    } else {
      hide Next, InStep;
      RoundSteps(s, task, t, k - 1);
      OneMoreSteps(s, task, t, k - 1);
      assert Round(k) == Round(k - 1) + [Step(k - 1)];
      RunConcat(s, Round(k - 1), [Step(k - 1)]);
      assert [Step(k - 1)][1..] == [];
    }
  }

  lemma NextRound(s0: Limiter, k: nat, s: Limiter, task: Task, t: nat) returns (s': Limiter)
    requires s == Run(s0, Rounds(|s.tasks|, k)) && InStep(s, task, t) && s.tasks != []
    ensures s' == Stepped(s, task, t, |s.tasks|) == Run(s0, Rounds(|s.tasks|, k + 1)) && |s'.tasks| == |s.tasks|
    ensures !task.StoredWindow? ==> InStep(s', Onward(task, t), t) && s'.admissions == s.admissions
  {
    s' := Stepped(s, task, t, |s.tasks|);
    RunConcat(s0, Rounds(|s.tasks|, k), Round(|s.tasks|));
    RoundSteps(s, task, t, |s.tasks|);
    if !task.StoredWindow? {
      RoundKeepsStep(s, task, t);
    }
  }

  /**
   The race at its widest, from the start: any number of tasks that call in the same second can all be admitted
   while the counter shows one, whatever the limit.
   */
  lemma EveryTaskCountsOnce(n: nat, limit: nat, clockMs: nat)
    requires n > 0 && limit < U32_MAX && clockMs >= 1000
    ensures var s := Run(Init(n, limit, clockMs), Rounds(n, 5));
            && s.admissions == seq(n, i => clockMs / 1000)
            && s.count == 1 && s.windowStart == clockMs / 1000
  {
    var t := clockMs / 1000;
    var s0 := Init(n, limit, clockMs);
    assert InStep(s0, Idle, t);
    hide InStep;
    var s1 := NextRound(s0, 0, s0, Idle, t);
    var s2 := NextRound(s0, 1, s1, AtTop, t);
    var s3 := NextRound(s0, 2, s2, GotNow(t), t);
    var s4 := NextRound(s0, 3, s3, Differs(t), t);
    var s5 := NextRound(s0, 4, s4, StoredWindow(t), t);
  }
}
