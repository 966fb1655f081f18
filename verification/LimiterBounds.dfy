/**
 How far the documented reset race can overshoot. A task that read an old second may store it late, which
 makes the current second look new again to every task that loads the window next.
 */
module LimiterBounds {
  import opened LimiterMachine

  /** What a task can still do to the second `t`. */
  datatype Role =
    | Stale       // has read another second and may yet store it as the window
    | Armed       // has read t, found another window, and will store t
    | Storing     // has stored its window and will reset the counter
    | StoringT    // the same, and the second it read is t
    | Involved    // has read t and may yet reset for it

  predicate Plays(x: Task, role: Role, t: nat) {
    match role
    case Stale => (x.GotNow? || x.Differs?) && x.now != t
    case Armed => x.Differs? && x.now == t
    case Storing => x.StoredWindow?
    case StoringT => x.StoredWindow? && x.now == t
    case Involved => (x.GotNow? || x.Differs? || x.StoredWindow?) && x.now == t
  }

  function One(b: bool): nat {
    if b then 1 else 0
  }

  function CountFirst(tasks: seq<Task>, n: nat, role: Role, t: nat): nat
    requires n <= |tasks|
  {
    if n == 0 then 0 else CountFirst(tasks, n - 1, role, t) + One(Plays(tasks[n - 1], role, t))
  }

  function Count(tasks: seq<Task>, role: Role, t: nat): nat {
    CountFirst(tasks, |tasks|, role, t)
  }

  lemma {:induction false} CountFirstUpdate(tasks: seq<Task>, n: nat, i: nat, x: Task, role: Role, t: nat)
    requires n <= |tasks| && i < |tasks|
    ensures CountFirst(tasks[i := x], n, role, t) + One(i < n && Plays(tasks[i], role, t))
            == CountFirst(tasks, n, role, t) + One(i < n && Plays(x, role, t))
  {
    hide Plays;
    if n == 0 {
    } else {
      CountFirstUpdate(tasks, n - 1, i, x, role, t);
    }
  }

  lemma CountUpdate(tasks: seq<Task>, i: nat, x: Task, role: Role, t: nat)
    requires i < |tasks|
    ensures Count(tasks[i := x], role, t) + One(Plays(tasks[i], role, t))
            == Count(tasks, role, t) + One(Plays(x, role, t))
  {
    hide Plays;
    CountFirstUpdate(tasks, |tasks|, i, x, role, t);
  }

  lemma {:induction false} CountFirstAtMost(tasks: seq<Task>, n: nat, role: Role, t: nat)
    requires n <= |tasks|
    ensures CountFirst(tasks, n, role, t) <= n
    ensures CountFirst(tasks, n, Stale, t) + CountFirst(tasks, n, Storing, t) <= n
    ensures CountFirst(tasks, n, StoringT, t) <= CountFirst(tasks, n, Storing, t)
  {
    if n == 0 {
    } else {
      CountFirstAtMost(tasks, n - 1, role, t);
    }
  }

  lemma {:induction false} NoneFirst(tasks: seq<Task>, n: nat, role: Role, t: nat)
    requires n <= |tasks|
    requires forall i :: 0 <= i < n ==> !Plays(tasks[i], role, t)
    ensures CountFirst(tasks, n, role, t) == 0
  {
    hide Plays;
    if n == 0 {
    } else {
      NoneFirst(tasks, n - 1, role, t);
    }
  }

  function ResetsAt(resets: seq<Reset>, t: nat): nat {
    if resets == [] then 0
    else ResetsAt(resets[..|resets| - 1], t) + One(resets[|resets| - 1].at == t)
  }

  function ResetsFor(resets: seq<Reset>, t: nat): nat {
    if resets == [] then 0
    else ResetsFor(resets[..|resets| - 1], t) + One(resets[|resets| - 1].reading == t)
  }

  function AdmissionsAt(admissions: seq<nat>, t: nat): nat {
    if admissions == [] then 0
    else AdmissionsAt(admissions[..|admissions| - 1], t) + One(admissions[|admissions| - 1] == t)
  }

  lemma HistoryAppend(resets: seq<Reset>, r: Reset, admissions: seq<nat>, a: nat, t: nat)
    ensures ResetsAt(resets + [r], t) == ResetsAt(resets, t) + One(r.at == t)
    ensures ResetsFor(resets + [r], t) == ResetsFor(resets, t) + One(r.reading == t)
    ensures AdmissionsAt(admissions + [a], t) == AdmissionsAt(admissions, t) + One(a == t)
  {
    assert (resets + [r])[..|resets|] == resets;
    assert (admissions + [a])[..|admissions|] == admissions;
  }

  /** The counts count: so many entries of the histories are of second `t`. */
  lemma {:induction false} AdmissionsAreOccurrences(admissions: seq<nat>, t: nat)
    ensures AdmissionsAt(admissions, t) == multiset(admissions)[t]
  {
    if admissions == [] {
    } else {
      var last := |admissions| - 1;
      AdmissionsAreOccurrences(admissions[..last], t);
      assert admissions == admissions[..last] + [admissions[last]];
    }
  }

  lemma {:induction false} ResetsAreOccurrences(resets: seq<Reset>, t: nat)
    ensures ResetsAt(resets, t) == multiset(seq(|resets|, k requires 0 <= k < |resets| => resets[k].at))[t]
    ensures ResetsFor(resets, t) == multiset(seq(|resets|, k requires 0 <= k < |resets| => resets[k].reading))[t]
  {
    if resets == [] {
    } else {
      var rest, last := resets[..|resets| - 1], resets[|resets| - 1];
      ResetsAreOccurrences(rest, t);
      var at := seq(|rest|, k requires 0 <= k < |rest| => rest[k].at);
      var reading := seq(|rest|, k requires 0 <= k < |rest| => rest[k].reading);
      assert seq(|resets|, k requires 0 <= k < |resets| => resets[k].at) == at + [last.at];
      assert seq(|resets|, k requires 0 <= k < |resets| => resets[k].reading) == reading + [last.reading];
    }
  }

  // ---- the potentials ----

  /** Tasks that would find the second `t` new. If the window is elsewhere, any task might. */
  function Eager(s: Limiter, t: nat): nat {
    if s.windowStart == t then Count(s.tasks, Armed, t) else |s.tasks|
  }

  /** Resets that may still happen while the clock shows `t`. */
  function AheadAt(s: Limiter, t: nat): nat {
    Eager(s, t) + Count(s.tasks, Storing, t) + Count(s.tasks, Stale, t) * (|s.tasks| + 1)
  }

  /** Resets that may still be made with reading `t`. Later seconds can disturb it once for each task. */
  function AheadFor(s: Limiter, t: nat): nat {
    Eager(s, t) + Count(s.tasks, StoringT, t) + Count(s.tasks, Stale, t) * |s.tasks| + |s.tasks|
  }

  function Overshoot(n: nat): nat {
    n * (n + 2)
  }

  /** No task has read a second that has not come yet. */
  predicate ReadingsPast(s: Limiter) {
    forall i :: 0 <= i < |s.tasks| ==>
      var x := s.tasks[i];
      (x.GotNow? || x.Differs? || x.StoredWindow?) ==> x.now <= Second(s)
  }

  predicate ResetInv(s: Limiter, t: nat) {
    && ReadingsPast(s)
    && (Second(s) < t ==> ResetsAt(s.resets, t) == 0 && ResetsFor(s.resets, t) == 0)
    && (Second(s) == t ==>
          && ResetsAt(s.resets, t) + AheadAt(s, t) <= Overshoot(|s.tasks|)
          && ResetsFor(s.resets, t) + AheadFor(s, t) <= Overshoot(|s.tasks|))
    && (Second(s) > t ==>
          && ResetsAt(s.resets, t) <= Overshoot(|s.tasks|)
          && ResetsFor(s.resets, t) + Count(s.tasks, Involved, t) <= Overshoot(|s.tasks|))
  }

  /** How a step changes the five counts. */
  lemma StepCounts(s: Limiter, i: nat, t: nat)
    requires i < |s.tasks|
    ensures var s' := StepTask(s, i);
            var x, x' := s.tasks[i], s'.tasks[i];
            && |s'.tasks| == |s.tasks|
            && forall role {:trigger Count(s'.tasks, role, t)} ::
                 Count(s'.tasks, role, t) + One(Plays(x, role, t)) == Count(s.tasks, role, t) + One(Plays(x', role, t))
  {
    var s' := StepTask(s, i);
    assert s'.tasks == s.tasks[i := s'.tasks[i]];
    forall role ensures Count(s'.tasks, role, t) + One(Plays(s.tasks[i], role, t))
                     == Count(s.tasks, role, t) + One(Plays(s'.tasks[i], role, t)) {
      CountUpdate(s.tasks, i, s'.tasks[i], role, t);
    }
  }

  /** Only a stale store makes tasks eager again, and a store of `t` itself uses up an eager task. */
  lemma EagerStep(s: Limiter, i: nat, t: nat)
    requires i < |s.tasks| && Second(s) == t
    ensures var x := s.tasks[i];
            && Eager(StepTask(s, i), t) <= |s.tasks|
            && (!(x.Differs? && x.now != t) ==> Eager(StepTask(s, i), t) <= Eager(s, t))
            && (Plays(x, Armed, t) ==> Eager(StepTask(s, i), t) + 1 <= Eager(s, t))
  {
    StepCounts(s, i, t);
    CountFirstAtMost(s.tasks, |s.tasks|, Armed, t);
    CountFirstAtMost(StepTask(s, i).tasks, |s.tasks|, Armed, t);
  }

  lemma StaleStep(s: Limiter, i: nat, t: nat)
    requires i < |s.tasks| && Second(s) == t
    ensures var x, n := s.tasks[i], |s.tasks|;
            var stale, stale' := Count(s.tasks, Stale, t), Count(StepTask(s, i).tasks, Stale, t);
            && stale' * n <= stale * n && stale' * (n + 1) <= stale * (n + 1)
            && (x.Differs? && x.now != t ==>
                  stale' * n + n == stale * n && stale' * (n + 1) + n + 1 == stale * (n + 1))
  {
    StepCounts(s, i, t);
    var n := |s.tasks|;
    var stale, stale' := Count(s.tasks, Stale, t), Count(StepTask(s, i).tasks, Stale, t);
    assert stale' == stale || stale' + 1 == stale;
    if stale' + 1 == stale {
      assert (stale' + 1) * n == stale' * n + n;
      assert (stale' + 1) * (n + 1) == stale' * (n + 1) + n + 1;
    }
  }

  /** While the clock shows `t`, each reset is paid for by the potential. */
  lemma StepPaysAt(s: Limiter, i: nat, t: nat)
    requires i < |s.tasks| && Second(s) == t
    ensures var s' := StepTask(s, i);
            && ResetsAt(s'.resets, t) + AheadAt(s', t) <= ResetsAt(s.resets, t) + AheadAt(s, t)
            && ResetsFor(s'.resets, t) + AheadFor(s', t) <= ResetsFor(s.resets, t) + AheadFor(s, t)
  {
    EagerStep(s, i, t);
    StaleStep(s, i, t);
    StepCounts(s, i, t);
    if s.tasks[i].StoredWindow? {
      HistoryAppend(s.resets, Reset(s.tasks[i].now, t), [], 0, t);
    }
    hide Eager, Count, ResetsAt, ResetsFor;
  }

  lemma StepPaysFor(s: Limiter, i: nat, t: nat)
    requires i < |s.tasks| && Second(s) > t
    ensures var s' := StepTask(s, i);
            && ResetsAt(s'.resets, t) == ResetsAt(s.resets, t)
            && ResetsFor(s'.resets, t) + Count(s'.tasks, Involved, t)
               <= ResetsFor(s.resets, t) + Count(s.tasks, Involved, t)
  {
    StepCounts(s, i, t);
    if s.tasks[i].StoredWindow? {
      HistoryAppend(s.resets, Reset(s.tasks[i].now, Second(s)), [], 0, t);
    }
    hide Count, ResetsAt, ResetsFor;
  }

  lemma StepBefore(s: Limiter, i: nat, t: nat)
    requires i < |s.tasks| && Second(s) < t && ReadingsPast(s)
    ensures ResetsAt(StepTask(s, i).resets, t) == ResetsAt(s.resets, t)
    ensures ResetsFor(StepTask(s, i).resets, t) == ResetsFor(s.resets, t)
  {
    if s.tasks[i].StoredWindow? {
      HistoryAppend(s.resets, Reset(s.tasks[i].now, Second(s)), [], 0, t);
    }
  }

  lemma StepKeepsReadings(s: Limiter, i: nat)
    requires i < |s.tasks| && ReadingsPast(s)
    ensures ReadingsPast(StepTask(s, i))
  {
  }

  lemma Monotone(a: nat, b: nat, c: nat)
    requires a <= b
    ensures a * c <= b * c
  {
  }

  /** When the second `t` begins, the potential is within the bound. */
  lemma SecondBegins(s: Limiter, t: nat)
    requires forall i :: 0 <= i < |s.tasks| ==> !Plays(s.tasks[i], StoringT, t)
    ensures AheadAt(s, t) <= Overshoot(|s.tasks|) && AheadFor(s, t) <= Overshoot(|s.tasks|)
  {
    var n := |s.tasks|;
    CountFirstAtMost(s.tasks, n, Armed, t);
    CountFirstAtMost(s.tasks, n, Stale, t);
    NoneFirst(s.tasks, n, StoringT, t);
    var stale := Count(s.tasks, Stale, t);
    assert stale * n <= n * n by { Monotone(stale, n, n); }
    assert stale * (n + 1) == stale * n + stale;
    assert n * (n + 2) == n * n + 2 * n;
  }

  /** When it ends, what is left are the tasks that read it. */
  lemma SecondEnds(s: Limiter, t: nat)
    ensures Count(s.tasks, Involved, t) <= AheadFor(s, t)
  {
    CountFirstAtMost(s.tasks, |s.tasks|, Involved, t);
  }

  lemma SameTasks(s: Limiter, s': Limiter, t: nat)
    requires s'.tasks == s.tasks && s'.windowStart == s.windowStart
    ensures AheadAt(s', t) == AheadAt(s, t) && AheadFor(s', t) == AheadFor(s, t)
  {
  }

  lemma ResetsWithin(s: Limiter, t: nat)
    ensures ResetsAt(s.resets, t) <= ResetsAt(s.resets, t) + AheadAt(s, t)
  {
  }

  lemma NextKeepsResets(s: Limiter, a: Action, t: nat)
    requires ResetInv(s, t) && !a.SetClock?
    ensures ResetInv(Next(s, a), t)
    ensures |Next(s, a).tasks| == |s.tasks|
  {
    hide AheadAt, AheadFor, Overshoot, Count, ResetsAt, ResetsFor;
    match a
    case Step(i) =>
      if i < |s.tasks| {
        StepKeepsReadings(s, i);
        StepCounts(s, i, t);
        if Second(s) < t {
          StepBefore(s, i, t);
        } else if Second(s) == t {
          StepPaysAt(s, i, t);
        } else {
          StepPaysFor(s, i, t);
        }
      }
    case Advance(ms) =>
      var s' := Next(s, a);
      assert Second(s) <= Second(s');
      SameTasks(s, s', t);
      if Second(s) < t {
        SecondBegins(s, t);
        if t < Second(s') {
          SecondEnds(s, t);
          ResetsWithin(s, t);
        }
      } else if Second(s) == t {
        SecondEnds(s, t);
        ResetsWithin(s, t);
      }
  }

  predicate ClockForward(actions: seq<Action>) {
    forall i :: 0 <= i < |actions| ==> !actions[i].SetClock?
  }

  lemma {:induction false} RunKeepsResets(s: Limiter, actions: seq<Action>, t: nat)
    requires ResetInv(s, t) && ClockForward(actions)
    ensures ResetInv(Run(s, actions), t) && |Run(s, actions).tasks| == |s.tasks|
    decreases |actions|
  {
    hide Next, ResetInv;
    if actions == [] {
    } else {
      NextKeepsResets(s, actions[0], t);
      RunKeepsResets(Next(s, actions[0]), actions[1..], t);
    }
  }

  lemma InitResets(n: nat, limit: nat, clockMs: nat, t: nat)
    ensures ResetInv(Init(n, limit, clockMs), t)
  {
    var s := Init(n, limit, clockMs);
    SecondBegins(s, t);
    NoneFirst(s.tasks, n, Involved, t);
    assert n * (n + 2) >= 0;
  }

  /**
   The reset race is bounded. While the clock does not run backwards, n tasks together reset the counter at
   most n(n + 2) times while it shows any one second, and at most n(n + 2) times with any one reading, stale
   tasks that write an old window included.
   */
  lemma ResetsAreBounded(n: nat, limit: nat, clockMs: nat, actions: seq<Action>, t: nat)
    requires ClockForward(actions)
    ensures var s := Run(Init(n, limit, clockMs), actions);
            && ResetsAt(s.resets, t) <= n * (n + 2)
            && ResetsFor(s.resets, t) <= n * (n + 2)
  {
    InitResets(n, limit, clockMs, t);
    RunKeepsResets(Init(n, limit, clockMs), actions, t);
    var s := Run(Init(n, limit, clockMs), actions);
    assert n * (n + 2) >= 0;
  }

  // ---- what that means for the rate ----

  /** Admissions in the second `t` fill one counter for each reset in it, and the one it found. */
  predicate RateInv(s: Limiter, t: nat) {
    && CounterInv(s)
    && (Second(s) < t ==> AdmissionsAt(s.admissions, t) == 0 && ResetsAt(s.resets, t) == 0)
    && (Second(s) == t ==> AdmissionsAt(s.admissions, t) <= Quota(s.limit, ResetsAt(s.resets, t)) + s.count)
    && (Second(s) > t ==> AdmissionsAt(s.admissions, t) <= Quota(s.limit, ResetsAt(s.resets, t) + 1))
  }

  lemma StepKeepsRate(s: Limiter, i: nat, t: nat)
    requires RateInv(s, t) && i < |s.tasks|
    ensures var s' := StepTask(s, i);
            && (Second(s) < t ==> AdmissionsAt(s'.admissions, t) == 0 && ResetsAt(s'.resets, t) == 0)
            && (Second(s) == t ==> AdmissionsAt(s'.admissions, t) <= Quota(s.limit, ResetsAt(s'.resets, t)) + s'.count)
            && (Second(s) > t ==> AdmissionsAt(s'.admissions, t) <= Quota(s.limit, ResetsAt(s'.resets, t) + 1))
  {
    hide AdmissionsAt, ResetsAt, Cap, Quota;
    var r := ResetsAt(s.resets, t);
    match s.tasks[i]
    case StoredWindow(now) =>
      HistoryAppend(s.resets, Reset(now, Second(s)), s.admissions, Second(s), t);
      QuotaStep(s.limit, r);
    case Loaded(now, c) => HistoryAppend([], Reset(0, 0), s.admissions, Second(s), t);
    case _ =>
  }

  lemma TimeKeepsRate(s: Limiter, ms: nat, t: nat)
    requires RateInv(s, t)
    ensures RateInv(s.(clockMs := s.clockMs + ms), t)
  {
    hide AdmissionsAt, ResetsAt, Cap, Quota;
    QuotaStep(s.limit, ResetsAt(s.resets, t));
    assert CounterInv(s.(clockMs := s.clockMs + ms));
    assert Second(s) <= Second(s.(clockMs := s.clockMs + ms));
  }

  lemma NextKeepsRate(s: Limiter, a: Action, t: nat)
    requires RateInv(s, t) && !a.SetClock?
    ensures RateInv(Next(s, a), t)
  {
    NextKeepsCounter(s, a);
    hide AdmissionsAt, ResetsAt, Cap, Quota, CounterInv;
    match a
    case Step(i) =>
      if i < |s.tasks| {
        StepKeepsRate(s, i, t);
        assert Second(Next(s, a)) == Second(s) && Next(s, a).limit == s.limit;
      }
    case Advance(ms) => TimeKeepsRate(s, ms, t);
  }

  lemma LimitStays(s: Limiter, a: Action)
    ensures Next(s, a).limit == s.limit
  {
  }

  lemma {:induction false} RunKeepsRate(s: Limiter, actions: seq<Action>, t: nat)
    requires RateInv(s, t) && ClockForward(actions)
    ensures RateInv(Run(s, actions), t) && Run(s, actions).limit == s.limit
    decreases |actions|
  {
    hide Next, RateInv;
    if actions == [] {
    } else {
      NextKeepsRate(s, actions[0], t);
      LimitStays(s, actions[0]);
      RunKeepsRate(Next(s, actions[0]), actions[1..], t);
    }
  }

  lemma QuotaMonotone(limit: nat, a: nat, b: nat)
    requires a <= b
    ensures Quota(limit, a) <= Quota(limit, b)
  {
    Monotone(a, b, Cap(limit));
  }

  lemma RateFromResets(s: Limiter, t: nat, bound: nat)
    requires RateInv(s, t) && ResetsAt(s.resets, t) <= bound
    ensures AdmissionsAt(s.admissions, t) <= Quota(s.limit, bound + 1)
  {
    hide AdmissionsAt, ResetsAt, Quota;
    QuotaStep(s.limit, ResetsAt(s.resets, t));
    QuotaMonotone(s.limit, ResetsAt(s.resets, t) + 1, bound + 1);
  }

  /**
   The soft cap. With n tasks and a clock that does not run backwards, no clock second sees more than
   max(1, limit) * (n + 1)^2 admissions, in any interleaving.
   */
  lemma SecondAdmitsAtMost(n: nat, limit: nat, clockMs: nat, actions: seq<Action>, t: nat)
    requires limit < U32_MAX && ClockForward(actions)
    ensures AdmissionsAt(Run(Init(n, limit, clockMs), actions).admissions, t) <= Quota(limit, (n + 1) * (n + 1))
  {
    var s := Run(Init(n, limit, clockMs), actions);
    ResetsAreBounded(n, limit, clockMs, actions, t);
    RunKeepsRate(Init(n, limit, clockMs), actions, t);
    assert (n + 1) * (n + 1) == n * (n + 2) + 1;
    hide RateInv, ResetsAt, Run, Quota;
    RateFromResets(s, t, n * (n + 2));
  }
}
