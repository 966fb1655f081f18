/** `InstanceLock` as the program has it: `acquire`, the heartbeat loop with its own `revision`, and `drop`. */
module InstanceLock {
  import opened Wrappers
  import opened LeaseMachine

  /** The bucket as everybody shares it. */
  class Bucket {
    var world: World

    constructor (n: nat)
      ensures world == Init(n)
    {
      world := Init(n);
    }

    /** `kv.update`: compare-and-swap on the revision of the live entry, 0 meaning that there is none. */
    method Update(writer: nat, expected: nat, net: Net) returns (rev: Option<nat>)
      modifies this
      ensures (world, rev) == LeaseMachine.Update(old(world), writer, expected, net)
    {
      if net.Cut? {
        return None;
      }
      var current := if world.entry.Some? then world.entry.value.rev else 0;
      if current != expected {
        return None;
      }
      var next := |world.writes| + 1;
      world := world.(entry := Some(Entry(next, writer, world.now)), writes := world.writes + [writer],
                      lastWrite := world.now);
      return if net.Reply? then Some(next) else None;
    }

    /** Time and the other processes. */
    method Others(actions: seq<Action>)
      modifies this
      ensures world == Run(old(world), actions)
    {
      world := Run(world, actions);
    }
  }

  /** What happens before one tick, and what the network does to its update. */
  datatype Tick = Tick(before: seq<Action>, net: Net)

  function TickActions(p: nat, ticks: seq<Tick>): seq<Action> {
    if ticks == [] then []
    else TickActions(p, ticks[..|ticks| - 1]) + ticks[|ticks| - 1].before + [Beat(p, ticks[|ticks| - 1].net)]
  }

  /** The others neither beat nor end this process. */
  predicate Foreign(p: nat, ticks: seq<Tick>) {
    forall i, k :: 0 <= i < |ticks| && 0 <= k < |ticks[i].before| ==>
      && ticks[i].before[k] != Die(p)
      && !(ticks[i].before[k].Beat? && ticks[i].before[k].p == p)
  }

  lemma {:induction false} OthersLeaveGuard(w: World, actions: seq<Action>, p: nat)
    requires p < |w.procs| && w.procs[p].Guarding?
    requires forall k :: 0 <= k < |actions| ==>
               actions[k] != Die(p) && !(actions[k].Beat? && actions[k].p == p)
    ensures Run(w, actions).procs[p] == w.procs[p]
    decreases |actions|
  {
    if actions == [] {
    } else {
      assert Step(w, actions[0]).procs[p] == w.procs[p];
      OthersLeaveGuard(Step(w, actions[0]), actions[1..], p);
    }
  }

  lemma OneStep(w: World, a: Action)
    ensures Run(w, [a]) == Step(w, a)
  {
  }

  // ---- a heartbeat on time ----

  function Elapsed(actions: seq<Action>): nat {
    if actions == [] then 0
    else (if actions[0].Pass? then actions[0].seconds else 0) + Elapsed(actions[1..])
  }

  /** The ticker's schedule: a first tick at once, and then one at the latest every 10 s, each with a reply. */
  predicate OnTime(ticks: seq<Tick>) {
    forall i :: 0 <= i < |ticks| ==>
      && Elapsed(ticks[i].before) <= (if i == 0 then 0 else 10)
      && ticks[i].net.Reply?
  }

  /** Less than 30 s of other processes' steps are within what the first holder can bear. */
  lemma {:induction false} OthersAreBorne(w: World, actions: seq<Action>, p: nat)
    requires SoleHolder(w, p) && w.now + Elapsed(actions) < w.procs[p].lastTick + TTL
    requires forall k :: 0 <= k < |actions| ==>
               actions[k] != Die(p) && !(actions[k].Beat? && actions[k].p == p)
    ensures SoleHolder(Run(w, actions), p)
    decreases |actions|
  {
    hide Inv;
    if actions == [] {
    } else {
      DiligentStepKeepsHolder(w, actions[0], p);
      OthersAreBorne(Step(w, actions[0]), actions[1..], p);
    }
  }

  lemma BeatOnTime(w: World, p: nat)
    requires SoleHolder(w, p)
    ensures var w' := Step(w, Beat(p, Reply)); SoleHolder(w', p) && w'.procs[p].lastTick == w'.now
  {
    DiligentStepKeepsHolder(w, Beat(p, Reply), p);
  }

  /** On this schedule the first holder's heartbeat never ends, whatever the other processes do. */
  lemma {:induction false} OnTimeKeepsHolder(w: World, p: nat, ticks: seq<Tick>)
    requires SoleHolder(w, p) && w.procs[p].lastTick == w.now
    requires Foreign(p, ticks) && OnTime(ticks)
    ensures var w' := Run(w, TickActions(p, ticks)); SoleHolder(w', p) && w'.procs[p].lastTick == w'.now
    decreases |ticks|
  {
    if ticks == [] {
    } else {
      hide SoleHolder, Step, Elapsed;
      var rest, tick := ticks[..|ticks| - 1], ticks[|ticks| - 1];
      OnTimeKeepsHolder(w, p, rest);
      var w1 := Run(w, TickActions(p, rest));
      RunConcat(w, TickActions(p, rest) + tick.before, [Beat(p, tick.net)]);
      RunConcat(w, TickActions(p, rest), tick.before);
      OthersAreBorne(w1, tick.before, p);
      OneStep(Run(w1, tick.before), Beat(p, tick.net));
      BeatOnTime(Run(w1, tick.before), p);
    }
  }

  lemma HolderSoFar(w: World, p: nat, ticks: seq<Tick>, used: nat)
    requires p < |w.procs| && w.procs[p].Guarding? && Foreign(p, ticks) && used <= |ticks|
    ensures SoleHolder(w, p) && w.procs[p].lastTick == w.now && OnTime(ticks)
            ==> var w' := Run(w, TickActions(p, ticks[..used])); SoleHolder(w', p) && w'.procs[p].beating
  {
    if SoleHolder(w, p) && w.procs[p].lastTick == w.now && OnTime(ticks) {
      OnTimeKeepsHolder(w, p, ticks[..used]);
    }
  }

  class InstanceLock {
    const kv: Bucket
    const p: nat
    var revision: nat     // the heartbeat task's local
    var beating: bool     // the task has not ended

    constructor Spawn(kv: Bucket, p: nat)
      ensures this.kv == kv && this.p == p && revision == FIRST_REMEMBERED && beating
    {
      this.kv, this.p, revision, beating := kv, p, FIRST_REMEMBERED, true;
    }

    /** What the heartbeat task knows is what the machine says `p` knows. */
    predicate Agrees()
      reads this, kv
    {
      && p < |kv.world.procs|
      && kv.world.procs[p].Guarding?
      && kv.world.procs[p].remembered == revision
      && kv.world.procs[p].beating == beating
    }

    /** `acquire`: create the key if it does not exist, and start the heartbeat. A skipped lock has none. */
    static method Acquire(kv: Bucket, p: nat, skip: bool, net: Net) returns (lock: Option<InstanceLock>, ok: bool)
      requires p < |kv.world.procs| && kv.world.procs[p].Absent?
      modifies kv
      ensures kv.world == Step(old(kv.world), Action.Acquire(p, skip, net))
      ensures ok <==> skip || kv.world.procs[p].Guarding?
      ensures lock.Some? <==> kv.world.procs[p].Guarding?
      ensures lock.Some? ==> fresh(lock.value) && lock.value.kv == kv && lock.value.p == p && lock.value.Agrees()
    {
      if skip {
        kv.world := SetProc(kv.world, p, Skipped);
        return None, true;
      }
      var rev := kv.Update(p, 0, net);
      if rev.None? {
        kv.world := SetProc(kv.world, p, Refused);
        return None, false;
      }
      kv.world := SetProc(kv.world, p, Guarding(rev.value, FIRST_REMEMBERED, true, kv.world.now));
      var l := new InstanceLock.Spawn(kv, p);
      return Some(l), true;
    }

    /** The heartbeat loop, over any finite part of a schedule. It ends at the first update that fails. */
    method Heartbeat(ticks: seq<Tick>) returns (used: nat)
      requires Agrees() && beating && Foreign(p, ticks)
      modifies this, kv
      ensures Agrees() && used <= |ticks|
      ensures kv.world == Run(old(kv.world), TickActions(p, ticks[..used]))
      ensures beating ==> used == |ticks|
      ensures SoleHolder(old(kv.world), p) && old(kv.world.procs[p].lastTick == kv.world.now) && OnTime(ticks)
              ==> beating && SoleHolder(kv.world, p)
    {
      hide SoleHolder, OnTime;
      used := 0;
      assert ticks[..0] == [];
      while used < |ticks|
        invariant Agrees() && beating && used <= |ticks|
        invariant kv.world == Run(old(kv.world), TickActions(p, ticks[..used]))
      {
        var tick := ticks[used];
        assert ticks[..used + 1][..used] == ticks[..used];
        RunConcat(old(kv.world), TickActions(p, ticks[..used]) + tick.before, [Beat(p, tick.net)]);
        RunConcat(old(kv.world), TickActions(p, ticks[..used]), tick.before);
        OthersLeaveGuard(kv.world, tick.before, p);
        kv.Others(tick.before);
        used := used + 1;
        ghost var before := kv.world;
        OneStep(before, Beat(p, tick.net));
        var rev := kv.Update(p, revision, tick.net);
        var x := kv.world.procs[p];
        match rev
        case Some(newRev) =>
          revision := newRev;
          kv.world := SetProc(kv.world, p, x.(remembered := newRev, lastTick := kv.world.now));
        case None =>
          beating := false;
          kv.world := SetProc(kv.world, p, x.(beating := false, lastTick := kv.world.now));
          HolderSoFar(old(kv.world), p, ticks, used);
          return;
      }
      HolderSoFar(old(kv.world), p, ticks, used);
    }

    /** `drop`: the task is aborted and the entry is left to expire. */
    method Drop()
      requires Agrees()
      modifies this, kv
      ensures !beating && kv.world == Step(old(kv.world), Die(p))
      ensures kv.world.entry == old(kv.world.entry) && kv.world.procs[p] == Gone
    {
      beating := false;
      kv.world := SetProc(kv.world, p, Gone);
    }
  }
}
