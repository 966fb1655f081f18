/** `RateLimiter::wait` as the program has it, run by one task, and runs whose iterations are not interleaved. */
module RateLimiter {
  import opened LimiterMachine
  import LimiterBounds

  /** The two atomics. */
  datatype Window = Window(start: nat, count: nat)

  /** One iteration of the loop in `wait` that no other task interrupts: the new window, and whether it admits. */
  function Iterate(w: Window, limit: nat, now: nat): (Window, bool) {
    if now != w.start then (Window(now, 1), true)
    else if w.count < limit then (Window(w.start, w.count + 1), true)
    else (w, false)
  }

  function WindowOf(s: Limiter): Window {
    Window(s.windowStart, s.count)
  }

  function Steps(i: nat, k: nat): seq<Action> {
    if k == 0 then [] else [Step(i)] + Steps(i, k - 1)
  }

  lemma RunSteps(s: Limiter, i: nat, k: nat)
    requires k > 0
    ensures Run(s, Steps(i, k)) == Run(Next(s, Step(i)), Steps(i, k - 1))
  {
    assert Steps(i, k)[1..] == Steps(i, k - 1);
  }

  lemma LastTwoSteps(s: Limiter, s2: Limiter, i: nat)
    requires i < |s.tasks|
    requires s2 == Go(s, i, if Second(s) != s.windowStart then Differs(Second(s)) else Same(Second(s)))
    ensures var s' := Run(s2, Steps(i, 2));
            var (w, admitted) := Iterate(WindowOf(s), s.limit, Second(s));
            && WindowOf(s') == w && s'.limit == s.limit
            && s'.admissions == s.admissions + (if admitted then [Second(s)] else [])
            && s'.tasks == s.tasks[i := if admitted then Idle
                                        else Sleeping(Second(s), s.clockMs + SleepMs(s.clockMs))]
  {
    RunSteps(s2, i, 2);
    var s3 := Next(s2, Step(i));
    RunSteps(s3, i, 1);
    var s4 := Next(s3, Step(i));
    assert Run(s4, Steps(i, 0)) == s4;
    hide SleepMs, Steps;
  }

  /** Four atomic steps that nobody interrupts are one iteration. */
  lemma IterationIsFourSteps(s: Limiter, i: nat)
    requires i < |s.tasks| && s.tasks[i].AtTop?
    ensures var s' := Run(s, Steps(i, 4));
            var (w, admitted) := Iterate(WindowOf(s), s.limit, Second(s));
            && WindowOf(s') == w && s'.limit == s.limit
            && s'.admissions == s.admissions + (if admitted then [Second(s)] else [])
            && s'.tasks == s.tasks[i := if admitted then Idle
                                        else Sleeping(Second(s), s.clockMs + SleepMs(s.clockMs))]
  {
    var now := Second(s);
    var s1 := Next(s, Step(i));
    assert s1 == Go(s, i, GotNow(now));
    var s2 := Next(s1, Step(i));
    assert s2 == Go(s, i, if now != s.windowStart then Differs(now) else Same(now)) by {
      assert s1.tasks[i := s2.tasks[i]] == s.tasks[i := s2.tasks[i]];
    }
    RunSteps(s, i, 4);
    RunSteps(s1, i, 3);
    LastTwoSteps(s, s2, i);
  }

  // ---- the sleep ----

  /** A sleep takes from 2 to 1001 ms, and ends 1 ms into the next second exactly while the cast loses nothing. */
  lemma SleepReachesNextSecond(ms: nat)
    ensures 2 <= SleepMs(ms) <= 1001
    ensures (ms + SleepMs(ms)) / 1000 == ms / 1000 + 1 && (ms + SleepMs(ms)) % 1000 == 1
            <==> (ms % U64) % 1000 == ms % 1000
    ensures ms < U64 ==> (ms % U64) % 1000 == ms % 1000
  {
    var cast := (ms % U64) % 1000;
    assert ms == 1000 * (ms / 1000) + ms % 1000;
    if (ms + SleepMs(ms)) / 1000 == ms / 1000 + 1 && (ms + SleepMs(ms)) % 1000 == 1 {
      assert ms + SleepMs(ms) == 1000 * (ms / 1000 + 1) + 1;
    }
    if cast == ms % 1000 {
      assert ms + SleepMs(ms) == 1000 * (ms / 1000 + 1) + 1;
    }
  }

  // ---- no call is stuck ----

  predicate OnlyTaskAndTime(actions: seq<Action>, i: nat) {
    forall k :: 0 <= k < |actions| ==> actions[k] == Step(i) || actions[k].Advance?
  }

  function StepsToTop(x: Task): nat {
    match x
    case GotNow(_) => 4
    case Differs(_) => 3
    case Same(_) => 3
    case StoredWindow(_) => 2
    case Loaded(_, _) => 2
    case Full(_) => 2
    case Sleeping(_, _) => 1
    case _ => 0
  }

  lemma StepsOnly(i: nat, k: nat)
    ensures OnlyTaskAndTime(Steps(i, k), i)
  {
  }

  /** By steps of its own, a task inside a call is admitted or is back at the top of the loop. */
  lemma ReturnsToTop(s: Limiter, i: nat) returns (k: nat)
    requires i < |s.tasks| && s.tasks[i] != Idle
    ensures var s' := Run(s, Steps(i, k));
            && |s'.tasks| == |s.tasks|
            && (s'.tasks[i] == AtTop || s'.tasks[i] == Idle)
            && |s'.admissions| == |s.admissions| + (if s'.tasks[i] == Idle then 1 else 0)
    decreases StepsToTop(s.tasks[i])
  {
    hide SleepMs;
    k := 0;
    if s.tasks[i] != AtTop {
      var s1 := Next(s, Step(i));
      RunSteps(s, i, 1);
      k := 1;
      if s1.tasks[i] != AtTop && s1.tasks[i] != Idle {
        var rest := ReturnsToTop(s1, i);
        RunSteps(s, i, rest + 1);
        k := rest + 1;
      }
    }
  }

  /**
   Nobody has to wait for anybody: wherever the others are, any task inside a call is admitted once, by steps of
   its own alone and at most one passing of a second.
   */
  lemma EveryCallCanFinish(s: Limiter, i: nat) returns (actions: seq<Action>)
    requires i < |s.tasks| && s.tasks[i] != Idle
    ensures OnlyTaskAndTime(actions, i)
    ensures var s' := Run(s, actions);
            |s'.tasks| == |s.tasks| && s'.tasks[i] == Idle && |s'.admissions| == |s.admissions| + 1
  {
    var k := ReturnsToTop(s, i);
    var s1 := Run(s, Steps(i, k));
    StepsOnly(i, k);
    actions := Steps(i, k);
    if s1.tasks[i] == AtTop {
      var wait := Advance(if Second(s1) == s1.windowStart then 1000 else 0);
      var s2 := Next(s1, wait);
      IterationIsFourSteps(s2, i);
      StepsOnly(i, 4);
      assert Run(s1, [wait]) == s2 by { assert [wait][1..] == []; }
      RunConcat(s1, [wait], Steps(i, 4));
      RunConcat(s, Steps(i, k), [wait] + Steps(i, 4));
      actions := Steps(i, k) + ([wait] + Steps(i, 4));
    }
  }

  /** The clock and the timer. Both only move on, by as much as they like. */
  class Clock {
    var ms: nat

    constructor (ms: nat)
      ensures this.ms == ms
    {
      this.ms := ms;
    }

    method Now() returns (r: nat)
      modifies this
      ensures r == ms >= old(ms)
    {
      var passed: nat :| 0 <= passed;
      ms := ms + passed;
      r := ms;
    }

    method Sleep(d: nat)
      modifies this
      ensures ms >= old(ms) + d
    {
      var passed: nat :| 0 <= passed;
      ms := ms + d + passed;
    }
  }

  class RateLimiter {
    var windowStart: nat
    var count: nat

    function View(): Window
      reads this
    {
      Window(windowStart, count)
    }

    constructor ()
      ensures View() == Window(0, 0)
    {
      windowStart, count := 0, 0;
    }

    /**
     `wait`, called by a task that runs alone. It is admitted by one iteration on the window it found, in a
     second `at` that it read, and sleeps at most once. A limit of u32::MAX returns at once.
     */
    method Wait(limit: nat, clock: Clock) returns (at: nat, sleeps: nat)
      modifies this, clock
      ensures clock.ms >= old(clock.ms)
      ensures limit == U32_MAX ==> View() == old(View()) && clock.ms == old(clock.ms)
      ensures limit != U32_MAX ==>
                && (View(), true) == Iterate(old(View()), limit, at)
                && old(clock.ms) / 1000 <= at <= clock.ms / 1000
      ensures clock.ms < U64 ==> sleeps <= 1
      ensures sleeps > 0 ==> old(count) >= limit && windowStart == at > old(windowStart) && count == 1
    {
      at, sleeps := 0, 0;
      if limit == U32_MAX {
        return;
      }
      while true
        invariant View() == old(View())
        invariant clock.ms >= old(clock.ms)
        invariant sleeps > 0 ==> old(count) >= limit && clock.ms >= 1000 * windowStart
        invariant sleeps > 0 && clock.ms < U64 ==> sleeps == 1 && clock.ms >= 1000 * (windowStart + 1)
        decreases if clock.ms < 1000 * (windowStart + 1) then 1000 * (windowStart + 1) - clock.ms else 0,
                  if sleeps > 0 then 0 else 1
      {
        var now := clock.Now();
        var nowSecs := now / 1000;
        var prev := windowStart;
        if nowSecs != prev {
          windowStart := nowSecs;
          count := 1;
          at := nowSecs;
          return;
        }
        var c := count;
        if c < limit {
          count := c + 1;
          at := nowSecs;
          return;
        }
        var nowMs := clock.Now();
        SleepReachesNextSecond(nowMs);
        clock.Sleep(SleepMs(nowMs));
        sleeps := sleeps + 1;
      }
    }
  }

  // ---- runs of whole iterations: each finds the clock at some second ----

  function After(w: Window, limit: nat, readings: seq<nat>): Window {
    if readings == [] then w
    else Iterate(After(w, limit, readings[..|readings| - 1]), limit, readings[|readings| - 1]).0
  }

  /** The readings that were admitted. */
  function Admitted(w: Window, limit: nat, readings: seq<nat>): seq<nat> {
    if readings == [] then []
    else
      var before, x := readings[..|readings| - 1], readings[|readings| - 1];
      Admitted(w, limit, before) + (if Iterate(After(w, limit, before), limit, x).1 then [x] else [])
  }

  /** How many maximal blocks of equal readings show the second `t`. */
  function Visits(readings: seq<nat>, t: nat): nat {
    if readings == [] then 0
    else
      var before, x := readings[..|readings| - 1], readings[|readings| - 1];
      Visits(before, t) + (if x == t && (before == [] || before[|before| - 1] != t) then 1 else 0)
  }

  /** How many maximal blocks of equal readings there are. */
  function Blocks(readings: seq<nat>): nat {
    if readings == [] then 0
    else
      var before, x := readings[..|readings| - 1], readings[|readings| - 1];
      Blocks(before) + (if before == [] || before[|before| - 1] != x then 1 else 0)
  }

  const FRESH: Window := Window(0, 0)

  /** The slots of second `t` that a window has given out. */
  function Used(w: Window, t: nat): nat {
    if w.start == t then w.count else 0
  }

  function Repeat(t: nat, k: nat): seq<nat> {
    seq(k, i => t)
  }

  lemma AdmittedAppend(admissions: seq<nat>, x: nat, t: nat)
    ensures LimiterBounds.AdmissionsAt(admissions + [x], t)
            == LimiterBounds.AdmissionsAt(admissions, t) + (if x == t then 1 else 0)
    ensures LimiterBounds.AdmissionsAt(admissions + [], t) == LimiterBounds.AdmissionsAt(admissions, t)
  {
    assert (admissions + [x])[..|admissions|] == admissions;
    assert admissions + [] == admissions;
  }

  lemma {:induction false} AdmissionsConcat(a: seq<nat>, b: seq<nat>, t: nat)
    ensures LimiterBounds.AdmissionsAt(a + b, t) == LimiterBounds.AdmissionsAt(a, t) + LimiterBounds.AdmissionsAt(b, t)
  {
    if b == [] {
      assert a + b == a;
    } else {
      var c, x := b[..|b| - 1], b[|b| - 1];
      AdmissionsConcat(a, c, t);
      AdmittedAppend(a + c, x, t);
      AdmittedAppend(c, x, t);
      assert a + b == a + c + [x] && b == c + [x];
    }
  }

  lemma {:induction false} RepeatCounts(x: nat, k: nat, t: nat)
    ensures LimiterBounds.AdmissionsAt(Repeat(x, k), t) == if x == t then k else 0
  {
    if k == 0 {
    } else {
      RepeatCounts(x, k - 1, t);
      AdmittedAppend(Repeat(x, k - 1), x, t);
      assert Repeat(x, k) == Repeat(x, k - 1) + [x];
    }
  }

  lemma NoAdmissions(t: nat)
    ensures LimiterBounds.AdmissionsAt([], t) == 0
  {
  }

  /**
   Whatever the clock does, each maximal block of equal readings admits at most max(1, limit). The count left
   in the window says how much of the running block's share is used.
   */
  lemma {:induction false} BlockAdmitsAtMost(limit: nat, readings: seq<nat>, t: nat)
    ensures var w := After(FRESH, limit, readings);
            var k := LimiterBounds.AdmissionsAt(Admitted(FRESH, limit, readings), t);
            && w.count <= Cap(limit)
            && (readings != [] ==> w.start == readings[|readings| - 1])
            && k <= Quota(limit, Visits(readings, t))
            && (readings != [] && w.start == t ==> k + Cap(limit) <= Quota(limit, Visits(readings, t)) + w.count)
            && Used(w, t) <= k
  {
    hide LimiterBounds.AdmissionsAt, Quota;
    QuotaStep(limit, 0);
    if readings == [] {
      NoAdmissions(t);
    } else {
      var before, x := readings[..|readings| - 1], readings[|readings| - 1];
      BlockAdmitsAtMost(limit, before, t);
      AdmittedAppend(Admitted(FRESH, limit, before), x, t);
      QuotaStep(limit, Visits(before, t));
    }
  }

  predicate Forward(readings: seq<nat>) {
    forall i, j :: 0 <= i < j < |readings| ==> readings[i] <= readings[j]
  }

  lemma {:induction false} ForwardVisitsOnce(readings: seq<nat>, t: nat)
    requires Forward(readings)
    ensures Visits(readings, t) <= 1
    ensures readings != [] && readings[|readings| - 1] < t ==> Visits(readings, t) == 0
  {
    if readings == [] {
    } else {
      ForwardVisitsOnce(readings[..|readings| - 1], t);
    }
  }

  lemma {:induction false} ForwardBlocks(readings: seq<nat>)
    requires Forward(readings) && readings != []
    ensures Blocks(readings) <= readings[|readings| - 1] - readings[0] + 1
  {
    if |readings| == 1 {
      assert readings[..0] == [];
    } else {
      ForwardBlocks(readings[..|readings| - 1]);
    }
  }

  lemma {:induction false} BlocksBoundAdmissions(limit: nat, readings: seq<nat>)
    ensures var w := After(FRESH, limit, readings);
            && w.count <= Cap(limit)
            && |Admitted(FRESH, limit, readings)| <= Quota(limit, Blocks(readings))
            && (readings != [] ==> w.start == readings[|readings| - 1])
            && (readings != [] ==>
                  |Admitted(FRESH, limit, readings)| + Cap(limit) <= Quota(limit, Blocks(readings)) + w.count)
  {
    hide Quota;
    QuotaStep(limit, 0);
    if readings == [] {
    } else {
      var before := readings[..|readings| - 1];
      BlocksBoundAdmissions(limit, before);
      QuotaStep(limit, Blocks(before));
    }
  }

  /** With a clock that does not run back, each second admits at most max(1, limit), and a span its share of seconds. */
  lemma ForwardClockKeepsTheLimit(limit: nat, readings: seq<nat>, t: nat)
    requires Forward(readings) && readings != []
    ensures LimiterBounds.AdmissionsAt(Admitted(FRESH, limit, readings), t) <= Cap(limit)
    ensures |Admitted(FRESH, limit, readings)| <= Quota(limit, readings[|readings| - 1] - readings[0] + 1)
  {
    QuotaStep(limit, 0);
    hide LimiterBounds.AdmissionsAt, Visits, Blocks, Admitted, Cap, After, Quota;
    BlockAdmitsAtMost(limit, readings, t);
    ForwardVisitsOnce(readings, t);
    LimiterBounds.QuotaMonotone(limit, Visits(readings, t), 1);
    BlocksBoundAdmissions(limit, readings);
    ForwardBlocks(readings);
    LimiterBounds.QuotaMonotone(limit, Blocks(readings), readings[|readings| - 1] - readings[0] + 1);
  }

  /** How many of `k` equal readings a window still admits. */
  function Fill(w: Window, limit: nat, t: nat, k: nat): nat {
    var used := Used(w, t);
    if k == 0 || (w.start == t && w.count >= limit) then 0
    else if used + k <= Cap(limit) then k else Cap(limit) - used
  }

  lemma {:induction false} AfterConcat(w: Window, limit: nat, a: seq<nat>, b: seq<nat>)
    ensures After(w, limit, a + b) == After(After(w, limit, a), limit, b)
    ensures Admitted(w, limit, a + b) == Admitted(w, limit, a) + Admitted(After(w, limit, a), limit, b)
  {
    if b == [] {
      assert a + b == a;
    } else {
      var c := b[..|b| - 1];
      assert (a + b)[..|a + b| - 1] == a + c;
      AfterConcat(w, limit, a, c);
    }
  }

  /** Equal readings are admitted until their window is full. */
  lemma {:induction false} RepeatFills(w: Window, limit: nat, t: nat, k: nat)
    ensures After(w, limit, Repeat(t, k))
            == if Fill(w, limit, t, k) == 0 then w else Window(t, Used(w, t) + Fill(w, limit, t, k))
    ensures Admitted(w, limit, Repeat(t, k)) == Repeat(t, Fill(w, limit, t, k))
  {
    if k == 0 {
    } else {
      assert Repeat(t, k)[..k - 1] == Repeat(t, k - 1);
      RepeatFills(w, limit, t, k - 1);
    }
  }

  /** One more showing, read `k` times, after any run. */
  lemma RepeatAdds(limit: nat, before: seq<nat>, x: nat, k: nat, t: nat)
    ensures var w := After(FRESH, limit, before);
            var f := Fill(w, limit, x, k);
            var readings := before + Repeat(x, k);
            && After(FRESH, limit, readings) == (if f == 0 then w else Window(x, Used(w, x) + f))
            && LimiterBounds.AdmissionsAt(Admitted(FRESH, limit, readings), t)
               == LimiterBounds.AdmissionsAt(Admitted(FRESH, limit, before), t) + (if x == t then f else 0)
  {
    hide LimiterBounds.AdmissionsAt, After, Admitted, Fill, Used, Repeat;
    var w := After(FRESH, limit, before);
    AfterConcat(FRESH, limit, before, Repeat(x, k));
    RepeatFills(w, limit, x, k);
    AdmissionsConcat(Admitted(FRESH, limit, before), Repeat(x, Fill(w, limit, x, k)), t);
    RepeatCounts(x, Fill(w, limit, x, k), t);
  }

  // ---- these runs are runs of the machine ----

  /** The clock is set to second `x`, and the one task takes a whole iteration. */
  function ReadingActions(x: nat): seq<Action> {
    [SetClock(1000 * x)] + Steps(0, 5)
  }

  function ReadingsActions(readings: seq<nat>): seq<Action> {
    if readings == [] then []
    else ReadingsActions(readings[..|readings| - 1]) + ReadingActions(readings[|readings| - 1])
  }

  predicate BetweenIterations(s: Limiter) {
    s.limit < U32_MAX && |s.tasks| == 1 && (s.tasks[0].Idle? || s.tasks[0].Sleeping?)
  }

  lemma OneReading(s: Limiter, x: nat)
    requires BetweenIterations(s)
    ensures var s' := Run(s, ReadingActions(x));
            var (w, admitted) := Iterate(WindowOf(s), s.limit, x);
            && BetweenIterations(s') && s'.limit == s.limit && WindowOf(s') == w
            && s'.admissions == s.admissions + (if admitted then [x] else [])
  {
    var s1 := Next(s, SetClock(1000 * x));
    var s2 := Next(s1, Step(0));
    assert Second(s2) == x && s2.tasks[0] == AtTop;
    assert ReadingActions(x)[1..] == Steps(0, 5);
    RunSteps(s1, 0, 5);
    IterationIsFourSteps(s2, 0);
    hide Next, Steps, Iterate, SleepMs;
  }

  /** A task that takes whole iterations, on a clock that is set to any readings, leaves that window and admissions. */
  lemma {:induction false} ReadingsAreARun(limit: nat, clockMs: nat, readings: seq<nat>)
    requires limit < U32_MAX
    ensures var s := Run(Init(1, limit, clockMs), ReadingsActions(readings));
            && BetweenIterations(s) && s.limit == limit
            && WindowOf(s) == After(FRESH, limit, readings)
            && s.admissions == Admitted(FRESH, limit, readings)
  {
    if readings == [] {
    } else {
      hide Run, Iterate, ReadingActions;
      var before, x := readings[..|readings| - 1], readings[|readings| - 1];
      var s0 := Init(1, limit, clockMs);
      ReadingsAreARun(limit, clockMs, before);
      OneReading(Run(s0, ReadingsActions(before)), x);
      RunConcat(s0, ReadingsActions(before), ReadingActions(x));
    }
  }

  // ---- a clock that runs back ----

  /**
   A second that the clock comes back to is admitted its limit again, for every limit and after any run. Only
   a clock that runs back can do that.
   */
  lemma BackwardClockDoublesTheLimit(limit: nat, before: seq<nat>, t: nat, u: nat)
    requires limit > 0 && u != t
    ensures LimiterBounds.AdmissionsAt(
              Admitted(FRESH, limit, before + Repeat(t, limit) + [u] + Repeat(t, limit)), t) >= 2 * limit
  {
    hide LimiterBounds.AdmissionsAt, After, Admitted, Quota;
    BlockAdmitsAtMost(limit, before, t);
    RepeatAdds(limit, before, t, limit, t);
    RepeatAdds(limit, before + Repeat(t, limit), u, 1, t);
    assert Repeat(u, 1) == [u];
    RepeatAdds(limit, before + Repeat(t, limit) + [u], t, limit, t);
  }
}
