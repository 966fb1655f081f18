/**
 The single-instance lease: one key in a KV bucket whose entries live 30 s, written by compare-and-swap on
 its revision. Revisions are the bucket's message sequence, so they only grow. Any number of processes
 acquire, heartbeat and die; time passes; the server removes an entry at or after its time to live.
 */
module LeaseMachine {
  import opened Wrappers

  const TTL: nat := 30

  /** The revision every heartbeat starts from, whatever revision its acquire produced. */
  const FIRST_REMEMBERED: nat := 1

  datatype Entry = Entry(rev: nat, writer: nat, at: nat)

  datatype Proc =
    | Absent
    | Guarding(acquired: nat, remembered: nat, beating: bool, lastTick: nat)
    | Refused
    | Skipped      // a license that allows HA: no lock at all
    | Gone

  datatype World = World(
    now: nat,
    entry: Option<Entry>,
    writes: seq<nat>,       // history: who wrote revision 1, 2, ...
    lastWrite: nat,         // history: when the last of them was written
    procs: seq<Proc>)

  /** What the network does to one update. */
  datatype Net =
    | Reply
    | ReplyLost   // the server applied it or refused it, and the caller saw an error
    | Cut         // it never arrived

  datatype Action =
    | Acquire(p: nat, skip: bool, net: Net)
    | Beat(p: nat, net: Net)
    | Die(p: nat)            // a crash, or dropping the guard
    | Pass(seconds: nat)
    | Expire

  function Init(n: nat): World {
    World(0, None, [], 0, seq(n, i => Absent))
  }

  /** The revision an update must name: that of the live entry, or 0 if there is none. */
  function CurrentRev(w: World): nat {
    if w.entry.Some? then w.entry.value.rev else 0
  }

  /** `kv.update(key, value, expected)`: the new revision, or an error. */
  function Update(w: World, writer: nat, expected: nat, net: Net): (World, Option<nat>) {
    if net.Cut? || expected != CurrentRev(w) then (w, None)
    else
      var rev := |w.writes| + 1;
      (w.(entry := Some(Entry(rev, writer, w.now)), writes := w.writes + [writer], lastWrite := w.now),
       if net.Reply? then Some(rev) else None)
  }

  function SetProc(w: World, p: nat, x: Proc): World
    requires p < |w.procs|
  {
    w.(procs := w.procs[p := x])
  }

  function Step(w: World, a: Action): (w': World)
    ensures |w'.procs| == |w.procs|
  {
    match a
    case Acquire(p, skip, net) =>
      if p >= |w.procs| || !w.procs[p].Absent? then w
      else if skip then SetProc(w, p, Skipped)
      else
        var (w', r) := Update(w, p, 0, net);
        SetProc(w', p, if r.Some? then Guarding(r.value, FIRST_REMEMBERED, true, w.now) else Refused)
    case Beat(p, net) =>
      if p >= |w.procs| || !w.procs[p].Guarding? || !w.procs[p].beating then w
      else
        var (w', r) := Update(w, p, w.procs[p].remembered, net);
        SetProc(w', p, w.procs[p].(remembered := if r.Some? then r.value else w.procs[p].remembered,
                                   beating := r.Some?, lastTick := w.now))
    case Die(p) =>
      if p >= |w.procs| || !w.procs[p].Guarding? then w else SetProc(w, p, Gone)
    case Pass(seconds) => w.(now := w.now + seconds)
    case Expire =>
      if w.entry.Some? && w.now >= w.entry.value.at + TTL then w.(entry := None) else w
  }

  function Run(w: World, actions: seq<Action>): (w': World)
    ensures |w'.procs| == |w.procs|
    decreases |actions|
  {
    if actions == [] then w else Run(Step(w, actions[0]), actions[1..])
  }

  lemma {:induction false} RunConcat(w: World, a: seq<Action>, b: seq<Action>)
    ensures Run(w, a + b) == Run(Run(w, a), b)
    decreases |a|
  {
    if a == [] {
      assert a + b == b;
    } else {
      assert (a + b)[0] == a[0] && (a + b)[1..] == a[1..] + b;
      RunConcat(Step(w, a[0]), a[1..], b);
    }
  }

  // ---- what every run keeps ----

  /** A guarding `p` wrote the revision it acquired and the one it remembers, unless that is the constant. */
  predicate ProcInv(w: World, p: nat)
    requires p < |w.procs|
  {
    var x := w.procs[p];
    x.Guarding? ==>
      && 1 <= x.acquired <= |w.writes| && w.writes[x.acquired - 1] == p
      && 1 <= x.remembered <= |w.writes|
      && (x.remembered == FIRST_REMEMBERED || w.writes[x.remembered - 1] == p)
      && (x.acquired != 1 ==> x.remembered == FIRST_REMEMBERED)
      && x.lastTick <= w.now
  }

  predicate EntryInv(w: World) {
    match w.entry
    case Some(e) => 1 <= e.rev == |w.writes| && w.writes[e.rev - 1] == e.writer && e.at == w.lastWrite <= w.now
    case None => w.writes != [] ==> w.now >= w.lastWrite + TTL
  }

  predicate Inv(w: World) {
    EntryInv(w) && forall p :: 0 <= p < |w.procs| ==> ProcInv(w, p)
  }

  /** The compare-and-swap of a heartbeat finds its own process's write, or nothing it can match. */
  lemma MatchIsOwn(w: World, p: nat)
    requires Inv(w) && p < |w.procs| && w.procs[p].Guarding?
    requires w.procs[p].remembered == CurrentRev(w)
    ensures w.entry.Some? && w.entry.value.writer == p && w.procs[p].acquired == 1
  {
    assert ProcInv(w, p);
  }

  lemma UpdateKeepsInv(w: World, p: nat, expected: nat, net: Net, x: Proc)
    requires Inv(w) && p < |w.procs| && expected == CurrentRev(w) && !net.Cut?
    requires var w' := SetProc(Update(w, p, expected, net).0, p, x); ProcInv(w', p)
    ensures Inv(SetProc(Update(w, p, expected, net).0, p, x))
  {
    var w' := SetProc(Update(w, p, expected, net).0, p, x);
    forall q | 0 <= q < |w'.procs| ensures ProcInv(w', q) {
      if q != p {
        assert ProcInv(w, q);
      }
    }
  }

  lemma ProcKeepsInv(w: World, p: nat, x: Proc)
    requires Inv(w) && p < |w.procs| && ProcInv(SetProc(w, p, x), p)
    ensures Inv(SetProc(w, p, x))
  {
    forall q | 0 <= q < |w.procs| ensures ProcInv(SetProc(w, p, x), q) {
      if q != p {
        assert ProcInv(w, q);
      }
    }
  }

  lemma TimeKeepsInv(w: World, a: Action)
    requires Inv(w) && (a.Pass? || a.Expire?)
    ensures Inv(Step(w, a))
  {
    var w' := Step(w, a);
    forall q | 0 <= q < |w'.procs| ensures ProcInv(w', q) {
      assert ProcInv(w, q);
    }
  }

  lemma BeatKeepsInv(w: World, p: nat, net: Net)
    requires Inv(w) && p < |w.procs| && w.procs[p].Guarding? && w.procs[p].beating
    ensures Inv(Step(w, Beat(p, net)))
  {
    assert ProcInv(w, p);
    var x := w.procs[p];
    var (w', r) := Update(w, p, x.remembered, net);
    if !net.Cut? && x.remembered == CurrentRev(w) {
      MatchIsOwn(w, p);
      UpdateKeepsInv(w, p, x.remembered, net, Step(w, Beat(p, net)).procs[p]);
    } else {
      ProcKeepsInv(w, p, Step(w, Beat(p, net)).procs[p]);
    }
  }

  lemma StepKeepsInv(w: World, a: Action)
    requires Inv(w)
    ensures Inv(Step(w, a))
    ensures w.writes <= Step(w, a).writes
  {
    match a
    case Acquire(p, skip, net) =>
      if p < |w.procs| && w.procs[p].Absent? {
        if !skip && !net.Cut? && CurrentRev(w) == 0 {
          UpdateKeepsInv(w, p, 0, net, Step(w, a).procs[p]);
        } else {
          ProcKeepsInv(w, p, Step(w, a).procs[p]);
        }
      }
    case Beat(p, net) =>
      if p < |w.procs| && w.procs[p].Guarding? && w.procs[p].beating {
        BeatKeepsInv(w, p, net);
      }
    case Die(p) =>
      if p < |w.procs| && w.procs[p].Guarding? {
        ProcKeepsInv(w, p, Gone);
      }
    case Pass(seconds) => TimeKeepsInv(w, a);
    case Expire => TimeKeepsInv(w, a);
  }

  lemma {:induction false} RunKeepsInv(w: World, actions: seq<Action>)
    requires Inv(w)
    ensures Inv(Run(w, actions))
    ensures w.writes <= Run(w, actions).writes
    decreases |actions|
  {
    hide Inv, Step;
    if actions == [] {
    } else {
      StepKeepsInv(w, actions[0]);
      RunKeepsInv(Step(w, actions[0]), actions[1..]);
    }
  }

  lemma Reachable(n: nat, actions: seq<Action>)
    ensures Inv(Run(Init(n), actions))
  {
    RunKeepsInv(Init(n), actions);
  }

  /** `p`'s heartbeat wrote an entry in this step. */
  predicate Refreshes(w: World, p: nat, net: Net) {
    Step(w, Beat(p, net)).writes != w.writes
  }

  /**
   Fencing. In every reachable state of any number of processes, revisions only grow, and a heartbeat writes
   only over an entry that the same process wrote last: a deposed holder never extends another's lease.
   */
  lemma HeartbeatIsFenced(n: nat, actions: seq<Action>, p: nat, net: Net, a: Action)
    requires p < n
    ensures var w := Run(Init(n), actions);
            && w.writes <= Step(w, a).writes
            && CurrentRev(w) <= |w.writes|
            && (Refreshes(w, p, net) ==>
                  w.entry.Some? && w.entry.value.writer == p && Step(w, Beat(p, net)).writes == w.writes + [p])
  {
    Reachable(n, actions);
    var w := Run(Init(n), actions);
    StepKeepsInv(w, a);
    if Refreshes(w, p, net) {
      MatchIsOwn(w, p);
    }
  }

  /** A second acquire succeeds only once the last write, whoever made it, is 30 s old; and then it does. */
  lemma AcquireWaitsForTtl(n: nat, actions: seq<Action>, p: nat, net: Net)
    requires p < n && Run(Init(n), actions).procs[p].Absent?
    ensures var w := Run(Init(n), actions);
            && (Step(w, Acquire(p, false, net)).procs[p].Guarding? <==> w.entry.None? && net.Reply?)
            && (w.entry.None? && w.writes != [] ==> w.now >= w.lastWrite + 30)
  {
    Reachable(n, actions);
  }

  /**
   What an acquire leaves. With a license that allows HA it touches nothing but the process. Otherwise it writes
   exactly if the key is absent and the request arrives, and the process guards exactly if it also hears so.
   */
  lemma AcquireWritesIff(n: nat, actions: seq<Action>, p: nat, skip: bool, net: Net)
    requires p < n && Run(Init(n), actions).procs[p].Absent?
    ensures var w := Run(Init(n), actions);
            var w' := Step(w, Acquire(p, skip, net));
            var writes := !skip && w.entry.None? && net != Cut;
            && w'.writes == w.writes + (if writes then [p] else [])
            && w'.entry == (if writes then Some(Entry(|w.writes| + 1, p, w.now)) else w.entry)
            && w'.now == w.now
            && (forall q :: 0 <= q < n && q != p ==> w'.procs[q] == w.procs[q])
            && w'.procs[p] == (if skip then Skipped
                               else if writes && net == Reply then Guarding(|w.writes| + 1, 1, true, w.now)
                               else Refused)
  {
    Reachable(n, actions);
    var w := Run(Init(n), actions);
    assert w.writes + [] == w.writes;
  }

  /**
   What a heartbeat leaves, for any holder. It writes exactly if the live entry has the revision it remembers and
   the request arrives; it beats on, remembering the new revision, exactly if it also hears so.
   */
  lemma BeatWritesIff(n: nat, actions: seq<Action>, p: nat, net: Net)
    requires p < n && Run(Init(n), actions).procs[p].Guarding? && Run(Init(n), actions).procs[p].beating
    ensures var w := Run(Init(n), actions);
            var w' := Step(w, Beat(p, net));
            var writes := w.entry.Some? && w.entry.value.rev == w.procs[p].remembered && net != Cut;
            && w'.writes == w.writes + (if writes then [p] else [])
            && w'.entry == (if writes then Some(Entry(|w.writes| + 1, p, w.now)) else w.entry)
            && w'.now == w.now
            && (forall q :: 0 <= q < n && q != p ==> w'.procs[q] == w.procs[q])
            && (w'.procs[p].Guarding? && w'.procs[p].lastTick == w.now)
            && w'.procs[p].acquired == w.procs[p].acquired
            && (w'.procs[p].beating <==> writes && net == Reply)
            && w'.procs[p].remembered == (if w'.procs[p].beating then |w.writes| + 1 else w.procs[p].remembered)
  {
    Reachable(n, actions);
    var w := Run(Init(n), actions);
    assert ProcInv(w, p);
    assert w.writes + [] == w.writes;
  }

  /** A heartbeat that has ended never writes again, whatever happens: the holder guards on without a lease. */
  lemma {:induction false} EndedHeartbeatStaysSilent(w: World, actions: seq<Action>, p: nat)
    requires p < |w.procs| && (w.procs[p].Gone? || (w.procs[p].Guarding? && !w.procs[p].beating))
    ensures var w' := Run(w, actions);
            && (w'.procs[p].Gone? || (w'.procs[p].Guarding? && !w'.procs[p].beating))
            && w.writes <= w'.writes
            && forall k :: |w.writes| <= k < |w'.writes| ==> w'.writes[k] != p
    decreases |actions|
  {
    if actions == [] {
    } else {
      EndedHeartbeatStaysSilent(Step(w, actions[0]), actions[1..], p);
    }
  }

  lemma ThreeSteps(w: World, a: Action, b: Action, c: Action)
    ensures Run(w, [a, b, c]) == Step(Step(Step(w, a), b), c)
  {
    hide Step;
    assert [a, b, c][1..] == [b, c] && [b, c][1..] == [c] && [c][1..] == [];
    assert Run(w, [a, b, c]) == Run(Step(w, a), [b, c]) == Run(Step(Step(w, a), b), [c]);
    assert Run(Step(Step(w, a), b), [c]) == Run(Step(Step(Step(w, a), b), c), []);
  }

  /** After a holder dies, a process that tries once 30 s have passed and the server has expired the key succeeds. */
  lemma RecoveryAfterTtl(n: nat, actions: seq<Action>, q: nat, seconds: nat)
    requires q < n && seconds >= 30 && Run(Init(n), actions).procs[q].Absent?
    ensures Run(Run(Init(n), actions), [Pass(seconds), Expire, Acquire(q, false, Reply)]).procs[q].Guarding?
  {
    Reachable(n, actions);
    var w := Run(Init(n), actions);
    var w1 := Step(w, Pass(seconds));
    var w2 := Step(w1, Expire);
    ThreeSteps(w, Pass(seconds), Expire, Acquire(q, false, Reply));
    assert w2.entry.None?;
  }

  // ---- the first holder of a bucket, and later ones ----

  /** In this step `p` does its part: it lives, its network works, and it ticks before the 30 s are over. */
  predicate DiligentStep(w: World, a: Action, p: nat)
    requires p < |w.procs|
  {
    && a != Die(p)
    && (a.Beat? && a.p == p ==> a.net.Reply?)
    && (a.Pass? && w.procs[p].Guarding? && w.procs[p].beating ==> w.now + a.seconds < w.procs[p].lastTick + TTL)
  }

  predicate Diligent(w: World, actions: seq<Action>, p: nat)
    requires p < |w.procs|
    decreases |actions|
  {
    actions == []
    || (DiligentStep(w, actions[0], p)
        && Diligent(Step(w, actions[0]), actions[1..], p))
  }

  predicate TwoGuards(w: World) {
    exists p, q :: 0 <= p < q < |w.procs| && w.procs[p].Guarding? && w.procs[q].Guarding?
  }

  /** `p` is the only guard, its heartbeat runs, and the entry is the write it remembers. */
  predicate SoleHolder(w: World, p: nat) {
    && Inv(w) && p < |w.procs|
    && w.procs[p].Guarding? && w.procs[p].acquired == 1 && w.procs[p].beating
    && w.entry == Some(Entry(w.procs[p].remembered, p, w.procs[p].lastTick))
    && w.now < w.procs[p].lastTick + TTL
    && forall q :: 0 <= q < |w.procs| && q != p ==> !w.procs[q].Guarding?
  }

  lemma DiligentStepKeepsHolder(w: World, a: Action, p: nat)
    requires SoleHolder(w, p) && DiligentStep(w, a, p)
    ensures SoleHolder(Step(w, a), p)
    ensures a.Acquire? && a.p < |w.procs| && w.procs[a.p].Absent? && !a.skip ==> Step(w, a).procs[a.p].Refused?
    ensures a.Beat? && a.p == p ==> Refreshes(w, p, a.net)
  {
    StepKeepsInv(w, a);
    hide ProcInv;
  }

  lemma SoleHolderExists(w: World, p: nat)
    requires SoleHolder(w, p)
    ensures p < |w.procs| && !TwoGuards(w)
  {
  }

  /**
   First-generation exclusion. While the first holder of a bucket does its part, it stays the only guard over
   every run, whatever the others do: every heartbeat matches and every other acquire is refused.
   */
  lemma {:induction false} FirstHolderExcludes(w: World, actions: seq<Action>, p: nat)
    requires SoleHolder(w, p) && Diligent(w, actions, p)
    ensures SoleHolder(Run(w, actions), p)
    decreases |actions|
  {
    hide Step, Inv, SoleHolder;
    if actions == [] {
    } else {
      SoleHolderExists(w, p);
      DiligentStepKeepsHolder(w, actions[0], p);
      FirstHolderExcludes(Step(w, actions[0]), actions[1..], p);
    }
  }

  /** `p` has acquired and not yet ticked. */
  predicate JustAcquired(w: World, p: nat) {
    && p < |w.procs| && w.procs[p].Guarding? && w.procs[p].beating
    && w.procs[p].remembered == FIRST_REMEMBERED
    && w.entry == Some(Entry(w.procs[p].acquired, p, w.procs[p].lastTick))
    && w.now < w.procs[p].lastTick + TTL
  }

  /** A holder that acquired at any revision but 1 never refreshes: its first heartbeat ends the loop for good. */
  lemma LaterHolderNeverRefreshes(n: nat, actions: seq<Action>, p: nat, net: Net)
    requires p < n && Run(Init(n), actions).procs[p].Guarding? && Run(Init(n), actions).procs[p].acquired != 1
    ensures var w := Run(Init(n), actions);
            && !Refreshes(w, p, net)
            && Step(w, Beat(p, net)).entry == w.entry
            && !Step(w, Beat(p, net)).procs[p].beating
  {
    Reachable(n, actions);
    var w := Run(Init(n), actions);
    assert ProcInv(w, p);
    if w.procs[p].remembered == CurrentRev(w) {
      MatchIsOwn(w, p);
    }
  }

  lemma FirstAcquirerIsSole(w: World, p: nat)
    requires Inv(w) && JustAcquired(w, p) && w.procs[p].acquired == 1
    ensures SoleHolder(w, p)
  {
    forall q | 0 <= q < |w.procs| && q != p ensures !w.procs[q].Guarding? {
      assert ProcInv(w, q);
    }
  }

  lemma FourSteps(w: World, actions: seq<Action>)
    requires |actions| == 4
    ensures Run(w, actions) == Step(Step(Step(Step(w, actions[0]), actions[1]), actions[2]), actions[3])
  {
    hide Step;
    assert actions[1..] == [actions[1], actions[2], actions[3]];
    ThreeSteps(Step(w, actions[0]), actions[1], actions[2], actions[3]);
  }

  /** The run in which a diligent later holder is joined by a second one, 30 s after it acquired. */
  lemma LaterHolderIsJoined(w: World, p: nat, q: nat) returns (actions: seq<Action>)
    requires Inv(w) && JustAcquired(w, p) && w.procs[p].acquired != 1
    requires q < |w.procs| && w.procs[q].Absent?
    ensures Diligent(w, actions, p)
    ensures Run(w, actions).procs[p].Guarding? && Run(w, actions).procs[q].Guarding?
    ensures TwoGuards(Run(w, actions))
  {
    assert ProcInv(w, p);
    var w1 := Step(w, Beat(p, Reply));
    assert w1.entry == w.entry && w1.procs[p].Guarding? && !w1.procs[p].beating;
    var w2 := Step(w1, Pass(TTL));
    var w3 := Step(w2, Expire);
    var w4 := Step(w3, Acquire(q, false, Reply));
    actions := [Beat(p, Reply), Pass(TTL), Expire, Acquire(q, false, Reply)];
    FourSteps(w, actions);
    assert w4.procs[p].Guarding? && w4.procs[q].Guarding?;
    hide Step;
    assert Diligent(w4, [], p);
    assert Diligent(w3, [Acquire(q, false, Reply)], p) by { assert [Acquire(q, false, Reply)][1..] == []; }
    assert Diligent(w2, actions[2..], p) by { assert actions[2..][1..] == [Acquire(q, false, Reply)]; }
    assert Diligent(w1, actions[1..], p) by { assert actions[1..][1..] == actions[2..]; }
  }

  /**
   The hard-coded starting revision decides exclusion. Take any reachable state in which `p` has just acquired
   and some process has yet to try. A run in which `p` does all its part and still two processes guard exists
   exactly when `p` acquired at a revision other than 1.
   */
  lemma ExclusionIffFirstRevision(n: nat, before: seq<Action>, p: nat, q: nat)
    requires q < n && JustAcquired(Run(Init(n), before), p) && Run(Init(n), before).procs[q].Absent?
    ensures var w := Run(Init(n), before);
            (exists actions :: Diligent(w, actions, p) && TwoGuards(Run(w, actions))) <==> w.procs[p].acquired != 1
  {
    Reachable(n, before);
    var w := Run(Init(n), before);
    if w.procs[p].acquired == 1 {
      FirstAcquirerIsSole(w, p);
      forall actions | Diligent(w, actions, p) ensures !TwoGuards(Run(w, actions)) {
        FirstHolderExcludes(w, actions, p);
        SoleHolderExists(Run(w, actions), p);
      }
    } else {
      var actions := LaterHolderIsJoined(w, p, q);
    }
  }

  /** Later holders are reached: any state in which the key has expired makes the next acquirer one. */
  lemma SecondAcquirerIsLater(n: nat, before: seq<Action>, p: nat)
    requires p < n && Run(Init(n), before).procs[p].Absent?
    requires Run(Init(n), before).entry.None?
    ensures var w := Step(Run(Init(n), before), Acquire(p, false, Reply));
            JustAcquired(w, p) && w.procs[p].acquired == |Run(Init(n), before).writes| + 1
  {
    Reachable(n, before);
  }
}
