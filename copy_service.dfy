// The copy service: a timer that, every 200 ms, reads each controller's last live snapshot from
// the registry and copies every trade of it to the connected props of the controller's user.

module Copier {
  import opened Wrappers
  import opened EAManager
  import opened TradeRequests
  import opened TradeCopy

  /** The polling period of the service, in milliseconds. */
  const INTERVAL_MS: int := 200

  // ---------------------------------------------------------------- one poll, as a function

  /** The props a controller's snapshot goes to on a poll: its user's props that are connected. */
  function PollProps(t: EATable, ctrl: EA): seq<Found> {
    UserProps(GetEAsByType(t, "prop"), ctrl.userId, true)
  }

  /** A controller is served on a poll when it is connected, has sent a live snapshot and its
      user has at least one connected prop. */
  predicate Eligible(t: EATable, ctrl: EA) {
    ctrl.tradesLive.Some? && ctrl.connected && |PollProps(t, ctrl)| > 0
  }

  /** The trades of a controller's snapshot: its positions, then its pending orders. */
  function SnapshotJobs(ctrl: EA): seq<CopyJob>
    requires ctrl.tradesLive.Some?
  {
    Jobs(ctrl, ctrl.tradesLive.value.positions, ctrl.tradesLive.value.orders)
  }

  /** The work of one poll for one controller. */
  function PollController(w: World, t: EATable, ctrl: EA, now: int): Run {
    if Eligible(t, ctrl) then CopyJobs(w, SnapshotJobs(ctrl), PollProps(t, ctrl), now) else Run(w, [])
  }

  /** The controllers visited in order. */
  function PollControllers(w: World, t: EATable, ctrls: seq<Found>, now: int): Run
    decreases |ctrls|
  {
    if |ctrls| == 0 then Run(w, [])
    else
      var before := PollControllers(w, t, ctrls[..|ctrls| - 1], now);
      var step := PollController(before.world, t, ctrls[|ctrls| - 1].ea, now);
      Run(step.world, before.sent + step.sent)
  }

  /** One tick of the service: every controller of the registry, in insertion order. */
  function Poll(w: World, t: EATable, now: int): Run {
    PollControllers(w, t, GetEAsByType(t, "controller"), now)
  }

  // ---------------------------------------------------------------- what a poll guarantees

  /** Every trade of the controller's snapshot has its copy done or waiting on every prop the
      poll would send it to. */
  predicate Served(w: World, t: EATable, ctrl: EA) {
    Eligible(t, ctrl) ==>
      forall k, i :: 0 <= k < |SnapshotJobs(ctrl)| && 0 <= i < |PollProps(t, ctrl)| ==>
        AlreadyCopied(w, SnapshotJobs(ctrl)[k], PollProps(t, ctrl)[i].ea.id)
  }

  /** Every connected prop of the registry has a socket to write to. */
  predicate PropsReachable(t: EATable) {
    forall k :: k in t.entries && t.entries[k].role == "prop" && t.entries[k].connected ==>
      t.entries[k].socket.Some?
  }

  /** The two worlds give every copy the same verdict. */
  ghost predicate SameVerdicts(w1: World, w2: World) {
    forall j: CopyJob, pid: string :: AlreadyCopied(w1, j, pid) <==> AlreadyCopied(w2, j, pid)
  }

  lemma PollPropsReachable(t: EATable, ctrl: EA)
    requires PropsReachable(t)
    ensures forall i :: 0 <= i < |PollProps(t, ctrl)| ==> PollProps(t, ctrl)[i].ea.socket.Some?
  {
    var props := PollProps(t, ctrl);
    var fs := GetEAsByType(t, "prop");
    forall i | 0 <= i < |props|
      ensures props[i].ea.socket.Some?
    {
      assert props[i] in props;
      var n :| 0 <= n < |fs| && fs[n] == props[i];
      assert fs[n].key in t.entries && fs[n].ea == t.entries[fs[n].key];
    }
  }

  /** Polling one controller keeps the invariant, and afterwards it is served when every
      connected prop has a socket. */
  lemma PollControllerCovers(w: World, t: EATable, ctrl: EA, now: int)
    requires WorldInvariant(w) && PropsReachable(t)
    ensures var r := PollController(w, t, ctrl, now);
      WorldInvariant(r.world) && Served(r.world, t, ctrl)
  {
    if Eligible(t, ctrl) {
      PollPropsReachable(t, ctrl);
      CopyJobsCovers(w, SnapshotJobs(ctrl), PollProps(t, ctrl), now);
    }
  }

  /** Polling one controller keeps every copy that was done or waiting. */
  lemma PollControllerKeeps(w: World, t: EATable, ctrl: EA, now: int, j: CopyJob, pid: string)
    requires WorldInvariant(w) && AlreadyCopied(w, j, pid)
    ensures AlreadyCopied(PollController(w, t, ctrl, now).world, j, pid)
  {
    if Eligible(t, ctrl) {
      CopyJobsKeeps(w, SnapshotJobs(ctrl), PollProps(t, ctrl), now, j, pid);
    }
  }

  /** A controller served before another is polled stays served. */
  lemma PollControllerKeepsServed(w: World, t: EATable, ctrl: EA, other: EA, now: int)
    requires WorldInvariant(w) && Served(w, t, other)
    ensures Served(PollController(w, t, ctrl, now).world, t, other)
  {
    if Eligible(t, other) {
      var jobs, props := SnapshotJobs(other), PollProps(t, other);
      forall k, i | 0 <= k < |jobs| && 0 <= i < |props|
        ensures AlreadyCopied(PollController(w, t, ctrl, now).world, jobs[k], props[i].ea.id)
      {
        PollControllerKeeps(w, t, ctrl, now, jobs[k], props[i].ea.id);
      }
    }
  }

  lemma {:induction false} PollControllersInvariant(w: World, t: EATable, ctrls: seq<Found>, now: int)
    requires WorldInvariant(w)
    ensures WorldInvariant(PollControllers(w, t, ctrls, now).world)
    decreases |ctrls|
  {
    if |ctrls| > 0 {
      var n := |ctrls| - 1;
      PollControllersInvariant(w, t, ctrls[..n], now);
      CopyJobsInvariant(PollControllers(w, t, ctrls[..n], now).world,
                        if ctrls[n].ea.tradesLive.Some? then SnapshotJobs(ctrls[n].ea) else [],
                        PollProps(t, ctrls[n].ea), now);
    }
  }

  /** After a pass over the controllers, each of them is served when every connected prop has a
      socket. */
  lemma {:induction false} PollControllersCovers(w: World, t: EATable, ctrls: seq<Found>, now: int, c: nat)
    requires WorldInvariant(w) && PropsReachable(t) && c < |ctrls|
    ensures Served(PollControllers(w, t, ctrls, now).world, t, ctrls[c].ea)
    decreases |ctrls|
  {
    var n := |ctrls| - 1;
    if c < n {
      PollControllersCovers(w, t, ctrls[..n], now, c);
      PollControllersKeepEarlier(w, t, ctrls, now, c);
    } else {
      PollControllersCoverLast(w, t, ctrls, now, c);
    }
  }

  lemma PollControllersKeepEarlier(w: World, t: EATable, ctrls: seq<Found>, now: int, c: nat)
    requires WorldInvariant(w) && c < |ctrls| - 1
    requires Served(PollControllers(w, t, ctrls[..|ctrls| - 1], now).world, t, ctrls[..|ctrls| - 1][c].ea)
    ensures Served(PollControllers(w, t, ctrls, now).world, t, ctrls[c].ea)
  {
    var n := |ctrls| - 1;
    var before := PollControllers(w, t, ctrls[..n], now);
    PollControllersInvariant(w, t, ctrls[..n], now);
    assert ctrls[..n][c] == ctrls[c];
    PollControllerKeepsServed(before.world, t, ctrls[n].ea, ctrls[c].ea, now);
    PollControllersLast(w, t, ctrls, now, ctrls[c].ea);
  }

  lemma PollControllersCoverLast(w: World, t: EATable, ctrls: seq<Found>, now: int, c: nat)
    requires WorldInvariant(w) && PropsReachable(t) && c == |ctrls| - 1
    ensures Served(PollControllers(w, t, ctrls, now).world, t, ctrls[c].ea)
  {
    var n := |ctrls| - 1;
    PollControllersInvariant(w, t, ctrls[..n], now);
    PollControllerCovers(PollControllers(w, t, ctrls[..n], now).world, t, ctrls[n].ea, now);
    PollControllersLast(w, t, ctrls, now, ctrls[n].ea);
  }

  lemma PollControllersLast(w: World, t: EATable, ctrls: seq<Found>, now: int, other: EA)
    requires 0 < |ctrls|
    requires Served(PollController(PollControllers(w, t, ctrls[..|ctrls| - 1], now).world, t, ctrls[|ctrls| - 1].ea, now).world,
                    t, other)
    ensures Served(PollControllers(w, t, ctrls, now).world, t, other)
  {
  }

  lemma ServedSameVerdicts(w1: World, w2: World, t: EATable, ctrl: EA)
    requires SameVerdicts(w1, w2) && Served(w1, t, ctrl)
    ensures Served(w2, t, ctrl)
  {
  }

  /** A served controller is skipped: its poll sends nothing and changes no verdict. */
  lemma PollControllerSkips(w: World, t: EATable, ctrl: EA, now: int)
    requires Served(w, t, ctrl)
    ensures var r := PollController(w, t, ctrl, now);
      r.sent == [] && SameVerdicts(r.world, w)
  {
    if Eligible(t, ctrl) {
      CopyJobsSkipsAll(w, SnapshotJobs(ctrl), PollProps(t, ctrl), now);
    }
  }

  /** A pass over served controllers sends nothing and changes no verdict. */
  lemma {:induction false} PollControllersSkipAll(w: World, t: EATable, ctrls: seq<Found>, now: int)
    requires forall c :: 0 <= c < |ctrls| ==> Served(w, t, ctrls[c].ea)
    ensures var r := PollControllers(w, t, ctrls, now);
      r.sent == [] && SameVerdicts(r.world, w)
    decreases |ctrls|
  {
    if |ctrls| > 0 {
      var n := |ctrls| - 1;
      assert forall c :: 0 <= c < n ==> ctrls[..n][c] == ctrls[c];
      PollControllersSkipAll(w, t, ctrls[..n], now);
      var before := PollControllers(w, t, ctrls[..n], now);
      ServedSameVerdicts(w, before.world, t, ctrls[n].ea);
      PollControllerSkips(before.world, t, ctrls[n].ea, now);
    }
  }

  /** No duplicate copies across ticks: while no answer or timeout arrives and the registry does
      not change, the tick after a tick sends nothing, when every connected prop has a socket. */
  lemma PollTwice(w: World, t: EATable, now1: int, now2: int)
    requires WorldInvariant(w) && PropsReachable(t)
    ensures var once := Poll(w, t, now1);
      WorldInvariant(once.world) && Poll(once.world, t, now2).sent == []
  {
    var ctrls := GetEAsByType(t, "controller");
    var once := Poll(w, t, now1);
    PollControllersInvariant(w, t, ctrls, now1);
    forall c | 0 <= c < |ctrls|
      ensures Served(once.world, t, ctrls[c].ea)
    {
      PollControllersCovers(w, t, ctrls, now1, c);
    }
    PollControllersSkipAll(once.world, t, ctrls, now2);
  }

  /** The prefix step of a pass over the controllers. */
  lemma PollControllersSnoc(w: World, t: EATable, ctrls: seq<Found>, c: nat, now: int)
    requires c < |ctrls|
    ensures var before := PollControllers(w, t, ctrls[..c], now);
      var step := PollController(before.world, t, ctrls[c].ea, now);
      PollControllers(w, t, ctrls[..c + 1], now) == Run(step.world, before.sent + step.sent)
  {
    assert ctrls[..c + 1][..c] == ctrls[..c];
  }

  // ---------------------------------------------------------------- the service

  /** What `getStatus` reports. */
  datatype ServiceStatus = ServiceStatus(isRunning: bool, intervalMs: int, controllersCount: nat, propsCount: nat)

  /** The copy service over the registry it was built with. `intervalActive` stands for the
      handle of the timer; `timersStarted` counts the timers ever started. */
  class CopyService {
    const registry: Registry
    var isRunning: bool
    var intervalActive: bool
    var logCounter: nat
    ghost var timersStarted: nat

    /** A timer runs exactly while the service runs. */
    ghost predicate Valid()
      reads this
    {
      isRunning == intervalActive
    }

    constructor (registry: Registry)
      ensures Valid() && this.registry == registry
      ensures !isRunning && !intervalActive && logCounter == 0 && timersStarted == 0
    {
      this.registry := registry;
      isRunning := false;
      intervalActive := false;
      logCounter := 0;
      timersStarted := 0;
    }

    /** `start`: when already running nothing changes, so no second timer is started. */
    method Start()
      requires Valid()
      modifies this
      ensures Valid() && isRunning && logCounter == old(logCounter)
      ensures old(isRunning) ==> timersStarted == old(timersStarted)
      ensures !old(isRunning) ==> timersStarted == old(timersStarted) + 1
    {
      if isRunning {
        return;
      }
      isRunning := true;
      intervalActive := true;
      timersStarted := timersStarted + 1;
    }

    /** `stop`: when not running nothing changes; otherwise the timer is cleared. */
    method Stop()
      requires Valid()
      modifies this
      ensures Valid() && !isRunning && logCounter == old(logCounter) && timersStarted == old(timersStarted)
    {
      if !isRunning {
        return;
      }
      isRunning := false;
      if intervalActive {
        intervalActive := false;
      }
    }

    /** `processCopying`: one tick. The tick counter advances, and the tracker and the pending
        requests move exactly as `Poll` says. */
    method ProcessCopying(tracker: CopyTracker, rm: RequestManager, now: int) returns (sent: seq<Sent>)
      requires tracker.Valid() && rm.Valid()
      modifies this, tracker, rm
      ensures tracker.Valid() && rm.Valid()
      ensures isRunning == old(isRunning) && intervalActive == old(intervalActive)
      ensures timersStarted == old(timersStarted) && logCounter == old(logCounter) + 1
      ensures Run(World(tracker.tracking, rm.pending, rm.nextId), sent) ==
                Poll(World(old(tracker.tracking), old(rm.pending), old(rm.nextId)), registry.table, now)
    {
      logCounter := logCounter + 1;
      var t := registry.table;
      var ctrls := GetEAsByType(t, "controller");
      ghost var w0 := World(tracker.tracking, rm.pending, rm.nextId);
      sent := [];
      var c := 0;
      while c < |ctrls|
        invariant 0 <= c <= |ctrls|
        invariant tracker.Valid() && rm.Valid()
        invariant isRunning == old(isRunning) && intervalActive == old(intervalActive)
        invariant timersStarted == old(timersStarted) && logCounter == old(logCounter) + 1
        invariant Run(World(tracker.tracking, rm.pending, rm.nextId), sent) == PollControllers(w0, t, ctrls[..c], now)
      {
        var ctrl := ctrls[c].ea;
        PollControllersSnoc(w0, t, ctrls, c, now);
        if ctrl.tradesLive.Some? && ctrl.connected {
          var props := UserProps(GetEAsByType(t, "prop"), ctrl.userId, true);
          if |props| > 0 {
            var s := tracker.CopySnapshot(ctrl, ctrl.tradesLive.value.positions, ctrl.tradesLive.value.orders,
                                          props, rm, now);
            sent := sent + s;
          }
        }
        c := c + 1;
      }
      assert ctrls[..c] == ctrls;
    }

    /** `getStatus`: whether the service runs, its period, and how many controllers and props the
        registry holds. */
    method GetStatus() returns (status: ServiceStatus)
      requires registry.Valid()
      ensures status == ServiceStatus(isRunning, INTERVAL_MS, |RoleKeys(registry.table, "controller")|,
                                      |RoleKeys(registry.table, "prop")|)
    {
      var t := registry.table;
      GetEAsByTypeCount(t, "controller");
      GetEAsByTypeCount(t, "prop");
      status := ServiceStatus(isRunning, INTERVAL_MS, |GetEAsByType(t, "controller")|, |GetEAsByType(t, "prop")|);
    }
  }
}
