/** Exactly how much runs of whole iterations admit, and exactly which clocks keep the limit. */
module LimiterClocks {
  import opened LimiterMachine
  import opened RateLimiter
  import LimiterBounds

  // ---- one run ----

  /** The length of the maximal block of equal readings that the run ends with. */
  function TailBlock(readings: seq<nat>): nat {
    if readings == [] then 0
    else
      var before, x := readings[..|readings| - 1], readings[|readings| - 1];
      1 + (if before != [] && before[|before| - 1] == x then TailBlock(before) else 0)
  }

  /** Nothing can have been admitted yet: a limit of 0 admits by resets only, and the window starts at second 0. */
  predicate StillIdle(limit: nat, readings: seq<nat>) {
    readings == []
    || (limit == 0 && readings[|readings| - 1] == 0 && StillIdle(limit, readings[..|readings| - 1]))
  }

  /** The readings of `t` that are among the first max(1, limit) of their maximal block. */
  function Share(limit: nat, readings: seq<nat>, t: nat): nat {
    if readings == [] then 0
    else
      var before, x := readings[..|readings| - 1], readings[|readings| - 1];
      Share(limit, before, t)
      + (if x == t && TailBlock(readings) <= Cap(limit) && !StillIdle(limit, readings) then 1 else 0)
  }

  function Min(a: nat, b: nat): nat {
    if a <= b then a else b
  }

  /** The window a run ends with: the second it read last, and the slots its last block has taken. */
  function TailWindow(limit: nat, readings: seq<nat>): Window {
    if StillIdle(limit, readings) then FRESH
    else Window(readings[|readings| - 1], Min(TailBlock(readings), Cap(limit)))
  }

  lemma IterateTail(limit: nat, before: seq<nat>, x: nat)
    ensures TailWindow(limit, before + [x]) == Iterate(TailWindow(limit, before), limit, x).0
    ensures Iterate(TailWindow(limit, before), limit, x).1
            <==> TailBlock(before + [x]) <= Cap(limit) && !StillIdle(limit, before + [x])
  {
    assert (before + [x])[..|before|] == before;
  }

  lemma {:induction false} AfterIsTailWindow(limit: nat, readings: seq<nat>)
    ensures After(FRESH, limit, readings) == TailWindow(limit, readings)
  {
    if readings == [] {
    } else {
      var before, x := readings[..|readings| - 1], readings[|readings| - 1];
      assert readings == before + [x];
      AfterIsTailWindow(limit, before);
      hide TailWindow;
      IterateTail(limit, before, x);
    }
  }

  /** One more reading is admitted if it adds to the share of its second. */
  lemma ShareGrows(limit: nat, before: seq<nat>, x: nat, t: nat)
    ensures var k := LimiterBounds.AdmissionsAt(Admitted(FRESH, limit, before + [x]), t)
                     - LimiterBounds.AdmissionsAt(Admitted(FRESH, limit, before), t);
            k == Share(limit, before + [x], t) - Share(limit, before, t)
  {
    hide LimiterBounds.AdmissionsAt, After, TailWindow, Iterate, TailBlock, StillIdle, Cap;
    assert (before + [x])[..|before|] == before && (before + [x])[|before|] == x;
    AfterIsTailWindow(limit, before);
    IterateTail(limit, before, x);
    AdmittedAppend(Admitted(FRESH, limit, before), x, t);
  }

  /** Under any clock, a second is admitted its share and nothing else. */
  lemma {:induction false} AdmissionsAreTheShare(limit: nat, readings: seq<nat>, t: nat)
    ensures LimiterBounds.AdmissionsAt(Admitted(FRESH, limit, readings), t) == Share(limit, readings, t)
    ensures After(FRESH, limit, readings) == TailWindow(limit, readings)
  {
    AfterIsTailWindow(limit, readings);
    if readings == [] {
      NoAdmissions(t);
    } else {
      hide LimiterBounds.AdmissionsAt, After, Admitted, Share, TailWindow;
      var before, x := readings[..|readings| - 1], readings[|readings| - 1];
      assert readings == before + [x];
      AdmissionsAreTheShare(limit, before, t);
      ShareGrows(limit, before, x, t);
    }
  }

  // ---- one clock, under every traffic ----

  /** The readings taken when the clock shows `ticks` in turn and each showing is read so many times. */
  function Traffic(ticks: seq<nat>, counts: seq<nat>): seq<nat>
    requires |ticks| == |counts|
  {
    if ticks == [] then []
    else
      var last := |ticks| - 1;
      Traffic(ticks[..last], counts[..last]) + Repeat(ticks[last], counts[last])
  }

  predicate WithinLimit(limit: nat, ticks: seq<nat>, counts: seq<nat>, t: nat)
    requires |ticks| == |counts|
  {
    LimiterBounds.AdmissionsAt(Admitted(FRESH, limit, Traffic(ticks, counts)), t) <= Cap(limit)
  }

  /** Whatever its traffic, no second admits more than max(1, limit). */
  ghost predicate KeepsLimit(limit: nat, ticks: seq<nat>) {
    forall counts: seq<nat>, t: nat :: |counts| == |ticks| ==> WithinLimit(limit, ticks, counts, t)
  }

  function Append(limit: nat, live: seq<nat>, x: nat): seq<nat> {
    if limit == 0 && live == [] && x == 0 then [] else live + [x]
  }

  /** The showings that can matter: with a limit of 0, all from the first that is not second 0. */
  function Live(limit: nat, ticks: seq<nat>): seq<nat> {
    if ticks == [] then []
    else
      var live, x := Live(limit, ticks[..|ticks| - 1]), ticks[|ticks| - 1];
      Append(limit, live, x)
  }

  /** Some showing of `t` is the current one, or has left its admissions in the window. */
  predicate Current(live: seq<nat>, w: Window, t: nat) {
    (live != [] && live[|live| - 1] == t) || (w.start == t && w.count > 0)
  }

  predicate Bounded(limit: nat, live: seq<nat>, w: Window, k: nat, t: nat) {
    && (live == [] ==> w == FRESH)
    && k <= Quota(limit, Visits(live, t))
    && (Current(live, w, t) ==> k + Cap(limit) <= Quota(limit, Visits(live, t)) + Used(w, t))
  }

  lemma VisitsAppend(live: seq<nat>, x: nat, t: nat)
    ensures Visits(live + [x], t)
            == Visits(live, t) + (if x == t && (live == [] || live[|live| - 1] != t) then 1 else 0)
  {
    assert (live + [x])[..|live|] == live;
  }

  /** One showing, read `c` times. */
  lemma ShowingKeepsBound(limit: nat, live: seq<nat>, w: Window, k: nat, x: nat, c: nat, t: nat)
    requires Bounded(limit, live, w, k, t)
    ensures var live' := Append(limit, live, x);
            var f := Fill(w, limit, x, c);
            Bounded(limit, live', if f == 0 then w else Window(x, Used(w, x) + f), k + (if x == t then f else 0), t)
  {
    hide Quota, Visits;
    VisitsAppend(live, x, t);
    QuotaStep(limit, Visits(live, t));
  }

  /** Under any traffic, a second admits at most its quota for each separate block of the clock that shows it. */
  lemma {:induction false} TrafficIsBounded(limit: nat, ticks: seq<nat>, counts: seq<nat>, t: nat)
    requires |ticks| == |counts|
    ensures var readings := Traffic(ticks, counts);
            Bounded(limit, Live(limit, ticks), After(FRESH, limit, readings),
                    LimiterBounds.AdmissionsAt(Admitted(FRESH, limit, readings), t), t)
  {
    if ticks == [] {
      NoAdmissions(t);
      QuotaStep(limit, 0);
    } else {
      var last := |ticks| - 1;
      var x, c := ticks[last], counts[last];
      var before := Traffic(ticks[..last], counts[..last]);
      var w := After(FRESH, limit, before);
      TrafficIsBounded(limit, ticks[..last], counts[..last], t);
      hide LimiterBounds.AdmissionsAt, After, Admitted, Bounded, Fill;
      RepeatAdds(limit, before, x, c, t);
      ShowingKeepsBound(limit, Live(limit, ticks[..last]), w,
                        LimiterBounds.AdmissionsAt(Admitted(FRESH, limit, before), t), x, c, t);
    }
  }

  function FullCounts(limit: nat, n: nat): seq<nat> {
    seq(n, i => Cap(limit))
  }

  /** The window that full traffic leaves behind. */
  function FullWindow(limit: nat, live: seq<nat>): Window {
    if live == [] then FRESH else Window(live[|live| - 1], Cap(limit))
  }

  lemma FullShowing(limit: nat, live: seq<nat>, x: nat)
    ensures var live' := Append(limit, live, x);
            var w := FullWindow(limit, live);
            var f := Fill(w, limit, x, Cap(limit));
            && f == (if live' == [] || (live != [] && live[|live| - 1] == x) then 0 else Cap(limit))
            && FullWindow(limit, live') == if f == 0 then w else Window(x, Used(w, x) + f)
  {
  }

  predicate TakesQuota(limit: nat, readings: seq<nat>, live: seq<nat>, t: nat) {
    && LimiterBounds.AdmissionsAt(Admitted(FRESH, limit, readings), t) == Quota(limit, Visits(live, t))
    && After(FRESH, limit, readings) == FullWindow(limit, live)
  }

  lemma FullShowingTakesQuota(limit: nat, readings: seq<nat>, live: seq<nat>, x: nat, t: nat)
    requires TakesQuota(limit, readings, live, t)
    ensures TakesQuota(limit, readings + Repeat(x, Cap(limit)), Append(limit, live, x), t)
  {
    hide LimiterBounds.AdmissionsAt, Admitted, After, FullWindow, Fill, Repeat, Quota, Visits, Cap;
    RepeatAdds(limit, readings, x, Cap(limit), t);
    FullShowing(limit, live, x);
    VisitsAppend(live, x, t);
    QuotaStep(limit, Visits(live, t));
  }

  /** Traffic that reads each showing max(1, limit) times is admitted the whole quota of every second. */
  lemma {:induction false} FullTrafficTakesTheQuota(limit: nat, ticks: seq<nat>, t: nat)
    ensures TakesQuota(limit, Traffic(ticks, FullCounts(limit, |ticks|)), Live(limit, ticks), t)
  {
    if ticks == [] {
      NoAdmissions(t);
      QuotaStep(limit, 0);
    } else {
      hide TakesQuota;
      var last := |ticks| - 1;
      assert FullCounts(limit, |ticks|)[..last] == FullCounts(limit, last);
      FullTrafficTakesTheQuota(limit, ticks[..last], t);
      FullShowingTakesQuota(limit, Traffic(ticks[..last], FullCounts(limit, last)), Live(limit, ticks[..last]),
                            ticks[last], t);
    }
  }

  lemma OneVisitEachKeepsLimit(limit: nat, ticks: seq<nat>)
    requires forall t: nat :: Visits(Live(limit, ticks), t) <= 1
    ensures KeepsLimit(limit, ticks)
  {
    hide LimiterBounds.AdmissionsAt, Admitted, Visits, Live, Quota;
    forall counts: seq<nat>, t: nat | |counts| == |ticks|
      ensures WithinLimit(limit, ticks, counts, t)
    {
      TrafficIsBounded(limit, ticks, counts, t);
      QuotaStep(limit, 0);
      LimiterBounds.QuotaMonotone(limit, Visits(Live(limit, ticks), t), 1);
    }
  }

  lemma SecondVisitBreaksLimit(limit: nat, ticks: seq<nat>, t: nat)
    requires Visits(Live(limit, ticks), t) > 1
    ensures !WithinLimit(limit, ticks, FullCounts(limit, |ticks|), t)
  {
    hide LimiterBounds.AdmissionsAt, Admitted, Visits, Live, Quota;
    FullTrafficTakesTheQuota(limit, ticks, t);
    QuotaStep(limit, 0);
    QuotaStep(limit, 1);
    LimiterBounds.QuotaMonotone(limit, 2, Visits(Live(limit, ticks), t));
  }

  /**
   Which clocks keep the limit, exactly. Under every traffic no second admits more than max(1, limit) if and
   only if the clock shows no second in two separate blocks. With a limit of 0, showings of second 0 before
   any other second are not counted.
   */
  lemma ClockKeepsLimitIff(limit: nat, ticks: seq<nat>)
    ensures KeepsLimit(limit, ticks) <==> forall t: nat :: Visits(Live(limit, ticks), t) <= 1
  {
    hide WithinLimit, Visits, Live;
    if forall t: nat :: Visits(Live(limit, ticks), t) <= 1 {
      OneVisitEachKeepsLimit(limit, ticks);
    } else {
      var t: nat :| Visits(Live(limit, ticks), t) > 1;
      SecondVisitBreaksLimit(limit, ticks, t);
      assert !WithinLimit(limit, ticks, FullCounts(limit, |ticks|), t);
    }
  }

  lemma {:induction false} AllLive(limit: nat, ticks: seq<nat>)
    requires limit > 0
    ensures Live(limit, ticks) == ticks
  {
    if ticks == [] {
    } else {
      AllLive(limit, ticks[..|ticks| - 1]);
    }
  }

  /** The clock never shows a second, then another, and then the first again. */
  predicate NeverReturnsTo(ticks: seq<nat>, t: nat) {
    forall i, j, k :: 0 <= i < j < k < |ticks| && ticks[i] == t && ticks[k] == t ==> ticks[j] == t
  }

  lemma ReturnsAtEnd(before: seq<nat>, x: nat, t: nat)
    ensures NeverReturnsTo(before + [x], t)
            <==> NeverReturnsTo(before, t) && (x == t && before != [] && before[|before| - 1] != t ==> t !in before)
  {
    var ticks, last := before + [x], |before|;
    if NeverReturnsTo(ticks, t) {
      forall i, j, k | 0 <= i < j < k < |before| && before[i] == t && before[k] == t ensures before[j] == t {
        assert ticks[i] == t && ticks[k] == t && ticks[j] == before[j];
      }
      if x == t && before != [] && before[last - 1] != t {
        forall i | 0 <= i < |before| ensures before[i] != t {
          assert ticks[i] == before[i] && ticks[last - 1] == before[last - 1] && ticks[last] == x;
        }
      }
    }
    if NeverReturnsTo(before, t) && (x == t && before != [] && before[last - 1] != t ==> t !in before) {
      forall i, j, k | 0 <= i < j < k < |ticks| && ticks[i] == t && ticks[k] == t ensures ticks[j] == t {
        assert before[i] == t && before[j] == ticks[j];
        if k == last && j < last - 1 {
          assert before[last - 1] == t;
        }
      }
    }
  }

  lemma {:induction false} UnvisitedIff(ticks: seq<nat>, t: nat)
    ensures Visits(ticks, t) == 0 <==> t !in ticks
  {
    if ticks == [] {
    } else {
      hide Visits;
      var last := |ticks| - 1;
      var before, x := ticks[..last], ticks[last];
      UnvisitedIff(before, t);
      assert ticks == before + [x];
      VisitsAppend(before, x, t);
    }
  }

  lemma {:induction false} VisitedIff(ticks: seq<nat>, t: nat)
    ensures Visits(ticks, t) <= 1 <==> NeverReturnsTo(ticks, t)
  {
    if ticks == [] {
    } else {
      hide NeverReturnsTo, Visits;
      var last := |ticks| - 1;
      var before, x := ticks[..last], ticks[last];
      assert ticks == before + [x];
      VisitedIff(before, t);
      UnvisitedIff(before, t);
      VisitsAppend(before, x, t);
      ReturnsAtEnd(before, x, t);
    }
  }

  /** In terms of the showings themselves: a positive limit is kept under all traffic iff no second comes back. */
  lemma ClockKeepsLimitIffNoReturn(limit: nat, ticks: seq<nat>)
    requires limit > 0
    ensures KeepsLimit(limit, ticks)
            <==> forall i, j, k :: 0 <= i < j < k < |ticks| && ticks[i] == ticks[k] ==> ticks[j] == ticks[i]
  {
    hide Visits, KeepsLimit, Live;
    ClockKeepsLimitIff(limit, ticks);
    AllLive(limit, ticks);
    if KeepsLimit(limit, ticks) {
      forall i, j, k | 0 <= i < j < k < |ticks| && ticks[i] == ticks[k] ensures ticks[j] == ticks[i] {
        assert Visits(Live(limit, ticks), ticks[i]) <= 1;
        VisitedIff(ticks, ticks[i]);
      }
    }
    if forall i, j, k :: 0 <= i < j < k < |ticks| && ticks[i] == ticks[k] ==> ticks[j] == ticks[i] {
      forall t: nat ensures Visits(Live(limit, ticks), t) <= 1 {
        VisitedIff(ticks, t);
        assert NeverReturnsTo(ticks, t);
      }
    }
  }

  /** A clock that does not run back is one of them, and so is one that runs back without coming back. */
  lemma ForwardClocksKeepLimit(limit: nat, ticks: seq<nat>)
    requires limit > 0
    ensures Forward(ticks) ==> KeepsLimit(limit, ticks)
    ensures KeepsLimit(limit, [5, 4])
  {
    ClockKeepsLimitIff(limit, ticks);
    AllLive(limit, ticks);
    if Forward(ticks) {
      forall t: nat ensures Visits(ticks, t) <= 1 {
        ForwardVisitsOnce(ticks, t);
      }
    }
    ClockKeepsLimitIff(limit, [5, 4]);
    AllLive(limit, [5, 4]);
    assert [5, 4] == [] + [5] + [4];
    forall t: nat ensures Visits([5, 4], t) <= 1 {
      VisitsAppend([], 5, t);
      VisitsAppend([5], 4, t);
    }
  }
}
