/**
 * Copy tracking: for every user, every controller trade `ctrlEA:ticket`, and every prop EA,
 * the state of copying that trade to that prop. The copier consults it to decide, per prop,
 * between sending a new request, skipping, and retrying after a failure.
 */
module TradeCopy {
  import opened Wrappers
  import opened Numeric
  import opened EAManager
  import opened TradeRequests

  datatype Status = Pending | Success | Failed

  /** The copy of one controller trade on one prop EA. `propTicket` is 0 and `error` is "" when
      absent; `requestIds` lists every request sent for this copy, oldest first. */
  datatype CopyRecord = CopyRecord(status: Status, propTicket: nat, error: string, timestamp: int,
                                   requestIds: seq<RequestId>)

  /** One controller trade and its copies, with the counters derived from them. */
  datatype Entry = Entry(controllerEAId: string, controllerTicket: nat, symbol: string, kind: string, volume: int,
                         copies: map<string, CopyRecord>,
                         successCount: nat, failedCount: nat, pendingCount: nat, totalPropEAs: nat,
                         createdAt: int, updatedAt: int)

  /** userId → trade key → entry. */
  type Tracking = map<string, map<string, Entry>>

  /** The key of a controller trade, `${controllerEAId}:${controllerTicket}`. */
  function TradeKey(controllerEAId: string, ticket: nat): string {
    controllerEAId + [':'] + NatToString(ticket)
  }

  /** Distinct trades have distinct keys: the ticket's digits hold no ':', so the last ':' of a
      key separates the EA identifier from the ticket. */
  lemma TradeKeyInjective(c1: string, t1: nat, c2: string, t2: nat)
    requires TradeKey(c1, t1) == TradeKey(c2, t2)
    ensures c1 == c2 && t1 == t2
  {
    var k := TradeKey(c1, t1);
    var d1, d2 := NatToString(t1), NatToString(t2);
    SplitAtColon(c1, d1, c2, d2);
    SplitAtColon(c2, d2, c1, d1);
    assert c1 == k[..|c1|] == c2;
    assert d1 == k[|c1| + 1..] == d2;
    NatToStringInjective(t1, t2);
  }

  lemma SplitAtColon(c1: string, d1: string, c2: string, d2: string)
    requires c1 + [':'] + d1 == c2 + [':'] + d2 && IsDecimal(d1)
    ensures |c1| >= |c2|
  {
    var k := c1 + [':'] + d1;
    assert k[|c2|] == (c2 + [':'] + d2)[|c2|] == ':';
    assert forall i :: |c1| < i < |k| ==> k[i] == d1[i - |c1| - 1] && IsDigit(k[i]);
  }

  // ---------------------------------------------------------------- counters

  /** The prop EAs whose copy has this status. */
  function StatusSet(copies: map<string, CopyRecord>, st: Status): set<string> {
    set p | p in copies && copies[p].status == st
  }

  function StatusCount(copies: map<string, CopyRecord>, st: Status): nat {
    |StatusSet(copies, st)|
  }

  /** The counters of an entry agree with its copies. */
  predicate Counted(e: Entry) {
    e.successCount == StatusCount(e.copies, Success) &&
    e.failedCount == StatusCount(e.copies, Failed) &&
    e.pendingCount == StatusCount(e.copies, Pending) &&
    e.totalPropEAs == |e.copies|
  }

  /** Every copy has exactly one of the three statuses, so the three counters add up to the total. */
  lemma CountsPartition(copies: map<string, CopyRecord>)
    ensures StatusCount(copies, Success) + StatusCount(copies, Failed) + StatusCount(copies, Pending) == |copies|
  {
    var s, f, p := StatusSet(copies, Success), StatusSet(copies, Failed), StatusSet(copies, Pending);
    assert s * f == {} && (s + f) * p == {};
    assert s + f + p == copies.Keys;
    assert |s + f| == |s| + |f|;
    assert |s + f + p| == |s + f| + |p|;
  }

  lemma SubsetCard<T>(a: set<T>, b: set<T>)
    requires a <= b
    ensures |a| <= |b|
    ensures |a| == |b| ==> a == b
  {
    assert b == a + (b - a);
    assert |b| == |a| + |b - a|;
    if |a| == |b| {
      assert |b - a| == 0;
      assert b - a == {};
    }
  }

  /** A counter equals the total exactly when every copy has that status. */
  lemma CountIsTotal(copies: map<string, CopyRecord>, st: Status)
    ensures StatusCount(copies, st) == |copies| <==> forall p :: p in copies ==> copies[p].status == st
    ensures StatusCount(copies, st) > 0 <==> exists p :: p in copies && copies[p].status == st
  {
    var s := StatusSet(copies, st);
    assert |copies.Keys| == |copies|;
    SubsetCard(s, copies.Keys);
    if exists p :: p in copies && copies[p].status == st {
      var p :| p in copies && copies[p].status == st;
      assert p in s;
    }
    if forall p :: p in copies ==> copies[p].status == st {
      assert s == copies.Keys;
    }
  }

  predicate NoDuplicates(ids: seq<RequestId>) {
    forall i, j :: 0 <= i < j < |ids| ==> ids[i] != ids[j]
  }

  /** What every tracked entry satisfies: it sits under its own trade key, its counters agree
      with its copies, and no copy lists a request id twice. */
  predicate TrackingInvariant(tr: Tracking) {
    forall u, k :: u in tr && k in tr[u] ==>
      k == TradeKey(tr[u][k].controllerEAId, tr[u][k].controllerTicket) &&
      Counted(tr[u][k]) &&
      forall p :: p in tr[u][k].copies ==> NoDuplicates(tr[u][k].copies[p].requestIds)
  }

  // ---------------------------------------------------------------- getTrackingEntry / updateCopyStatus

  /** A new entry: no copies, every counter 0. */
  function FreshEntry(controllerEAId: string, ticket: nat, now: int): Entry {
    Entry(controllerEAId, ticket, "", "", 0, map[], 0, 0, 0, 0, now, now)
  }

  /** The trades tracked for a user; none before the first. */
  function UserTracking(tr: Tracking, userId: string): map<string, Entry> {
    if userId in tr then tr[userId] else map[]
  }

  /** The tracking after `getTrackingEntry`: the entry is created, empty, when missing. */
  function EnsureEntry(tr: Tracking, userId: string, controllerEAId: string, ticket: nat, now: int): (r: Tracking)
    ensures userId in r && TradeKey(controllerEAId, ticket) in r[userId]
    ensures userId in tr && TradeKey(controllerEAId, ticket) in tr[userId] ==> r == tr
    ensures !(userId in tr && TradeKey(controllerEAId, ticket) in tr[userId]) ==>
              r == tr[userId := UserTracking(tr, userId)[TradeKey(controllerEAId, ticket) := FreshEntry(controllerEAId, ticket, now)]]
  {
    var key := TradeKey(controllerEAId, ticket);
    var user := UserTracking(tr, userId);
    if key in user then tr else tr[userId := user[key := FreshEntry(controllerEAId, ticket, now)]]
  }

  /** `getTrackingEntry` is get-or-create: the second call finds what the first made, whatever the
      clock says, and a made entry starts with no copies and all counters 0. */
  lemma GetOrCreate(tr: Tracking, userId: string, controllerEAId: string, ticket: nat, now1: int, now2: int)
    requires TrackingInvariant(tr)
    ensures var once := EnsureEntry(tr, userId, controllerEAId, ticket, now1);
      EnsureEntry(once, userId, controllerEAId, ticket, now2) == once &&
      TrackingInvariant(once) &&
      (!(userId in tr && TradeKey(controllerEAId, ticket) in tr[userId]) ==>
         var e := once[userId][TradeKey(controllerEAId, ticket)];
         e.copies == map[] && e.successCount == 0 && e.failedCount == 0 && e.pendingCount == 0 && e.totalPropEAs == 0)
  {
    var key := TradeKey(controllerEAId, ticket);
    if !(userId in tr && key in tr[userId]) {
      var once: Tracking := EnsureEntry(tr, userId, controllerEAId, ticket, now1);
      var made := FreshEntry(controllerEAId, ticket, now1);
      FreshCounted(controllerEAId, ticket, now1);
      assert once[userId][key] == made;
      forall u: string, k: string | u in once && k in once[u]
        ensures k == TradeKey(once[u][k].controllerEAId, once[u][k].controllerTicket) && Counted(once[u][k]) &&
                forall p :: p in once[u][k].copies ==> NoDuplicates(once[u][k].copies[p].requestIds)
      {
        if u != userId || k != key {
          assert once[u][k] == tr[u][k];
        }
      }
    }
  }

  /** A new entry has no copies and its counters agree with that. */
  lemma FreshCounted(controllerEAId: string, ticket: nat, now: int)
    ensures Counted(FreshEntry(controllerEAId, ticket, now))
  {
    assert StatusSet(map[], Success) == {} && StatusSet(map[], Failed) == {} && StatusSet(map[], Pending) == {};
  }

  /** The request ids of a copy after an update: a new id is appended, an absent or known one is not. */
  function AddRequestId(ids: seq<RequestId>, requestId: Option<RequestId>): (r: seq<RequestId>)
    ensures NoDuplicates(ids) ==> NoDuplicates(r)
    ensures forall x :: x in r <==> x in ids || requestId == Some(x)
    ensures requestId.None? || requestId.value in ids ==> r == ids
    ensures |r| >= |ids| && r[..|ids|] == ids
  {
    if requestId.Some? && requestId.value !in ids then ids + [requestId.value] else ids
  }

  /** The entry after `updateCopyStatus` for one prop: that prop's copy takes the new status,
      ticket, error and time and keeps its request history, and the counters are recomputed. */
  function UpdateEntry(e: Entry, propEAId: string, status: Status, propTicket: nat, error: string,
                       requestId: Option<RequestId>, now: int): (r: Entry)
    ensures Counted(r) && r.updatedAt == now
    ensures propEAId in r.copies && r.copies[propEAId].status == status &&
            r.copies[propEAId].propTicket == propTicket && r.copies[propEAId].error == error
    ensures r.copies[propEAId].requestIds ==
              AddRequestId(if propEAId in e.copies then e.copies[propEAId].requestIds else [], requestId)
    ensures forall p :: p != propEAId ==> (p in r.copies <==> p in e.copies)
    ensures forall p :: p != propEAId && p in e.copies ==> r.copies[p] == e.copies[p]
    ensures r.controllerEAId == e.controllerEAId && r.controllerTicket == e.controllerTicket
    ensures r.symbol == e.symbol && r.kind == e.kind && r.volume == e.volume && r.createdAt == e.createdAt
  {
    var history := if propEAId in e.copies then e.copies[propEAId].requestIds else [];
    var copies := e.copies[propEAId := CopyRecord(status, propTicket, error, now, AddRequestId(history, requestId))];
    e.(copies := copies, updatedAt := now,
       successCount := StatusCount(copies, Success), failedCount := StatusCount(copies, Failed),
       pendingCount := StatusCount(copies, Pending), totalPropEAs := |copies|)
  }

  /** The tracking after `updateCopyStatus`. */
  function UpdateCopy(tr: Tracking, userId: string, controllerEAId: string, ticket: nat, propEAId: string,
                      status: Status, propTicket: nat, error: string, requestId: Option<RequestId>, now: int): Tracking
  {
    var tr1 := EnsureEntry(tr, userId, controllerEAId, ticket, now);
    var key := TradeKey(controllerEAId, ticket);
    tr1[userId := tr1[userId][key := UpdateEntry(tr1[userId][key], propEAId, status, propTicket, error, requestId, now)]]
  }

  /** `updateCopyStatus` keeps the invariant: keys, counters and duplicate-free request histories. */
  lemma UpdateCopyInvariant(tr: Tracking, userId: string, controllerEAId: string, ticket: nat, propEAId: string,
                            status: Status, propTicket: nat, error: string, requestId: Option<RequestId>, now: int)
    requires TrackingInvariant(tr)
    ensures TrackingInvariant(UpdateCopy(tr, userId, controllerEAId, ticket, propEAId, status, propTicket, error, requestId, now))
  {
    var key := TradeKey(controllerEAId, ticket);
    GetOrCreate(tr, userId, controllerEAId, ticket, now, now);
    var tr1: Tracking := EnsureEntry(tr, userId, controllerEAId, ticket, now);
    var r: Tracking := UpdateCopy(tr, userId, controllerEAId, ticket, propEAId, status, propTicket, error, requestId, now);
    var e: Entry := tr1[userId][key];
    var history := if propEAId in e.copies then e.copies[propEAId].requestIds else [];
    assert NoDuplicates(history);
    var e2 := UpdateEntry(e, propEAId, status, propTicket, error, requestId, now);
    assert r == tr1[userId := tr1[userId][key := e2]];
    forall u: string, k: string | u in r && k in r[u]
      ensures k == TradeKey(r[u][k].controllerEAId, r[u][k].controllerTicket) && Counted(r[u][k]) &&
              forall p :: p in r[u][k].copies ==> NoDuplicates(r[u][k].copies[p].requestIds)
    {
      if u == userId && k == key {
        assert r[u][k] == e2;
        assert k == TradeKey(e.controllerEAId, e.controllerTicket);
      } else {
        assert r[u][k] == tr1[u][k];
      }
    }
  }

  /** `updateCopyStatus` touches only the addressed trade: other users and other trades of the
      user stay as they were. */
  lemma UpdateCopyFrame(tr: Tracking, userId: string, controllerEAId: string, ticket: nat, propEAId: string,
                        status: Status, propTicket: nat, error: string, requestId: Option<RequestId>, now: int)
    ensures var r := UpdateCopy(tr, userId, controllerEAId, ticket, propEAId, status, propTicket, error, requestId, now);
      var key := TradeKey(controllerEAId, ticket);
      (forall u :: u in r <==> u in tr || u == userId) &&
      (forall u :: u in tr && u != userId ==> r[u] == tr[u]) &&
      (forall k :: k in r[userId] <==> k in UserTracking(tr, userId) || k == key) &&
      (forall k :: k in UserTracking(tr, userId) && k != key ==> r[userId][k] == tr[userId][k])
  {
    var key := TradeKey(controllerEAId, ticket);
    var r: Tracking := UpdateCopy(tr, userId, controllerEAId, ticket, propEAId, status, propTicket, error, requestId, now);
    UpdateCopyShape(tr, userId, controllerEAId, ticket, propEAId, status, propTicket, error, requestId, now);
    StoreFrame(tr, userId, key, r[userId][key], r);
  }

  /** The tracking after `updateCopyStatus` is the old one with the addressed entry stored. */
  lemma UpdateCopyShape(tr: Tracking, userId: string, controllerEAId: string, ticket: nat, propEAId: string,
                        status: Status, propTicket: nat, error: string, requestId: Option<RequestId>, now: int)
    ensures var r := UpdateCopy(tr, userId, controllerEAId, ticket, propEAId, status, propTicket, error, requestId, now);
      var key := TradeKey(controllerEAId, ticket);
      userId in r && key in r[userId] && r == tr[userId := UserTracking(tr, userId)[key := r[userId][key]]]
  {
    var tr1: Tracking := EnsureEntry(tr, userId, controllerEAId, ticket, now);
    var key := TradeKey(controllerEAId, ticket);
    EnsureThenStore(tr, userId, controllerEAId, ticket, now,
                    UpdateEntry(tr1[userId][key], propEAId, status, propTicket, error, requestId, now));
  }

  /** Creating the entry if missing and then storing one under its key is storing that one. */
  lemma EnsureThenStore(tr: Tracking, userId: string, controllerEAId: string, ticket: nat, now: int, e: Entry)
    ensures var tr1 := EnsureEntry(tr, userId, controllerEAId, ticket, now);
      var key := TradeKey(controllerEAId, ticket);
      tr1[userId := tr1[userId][key := e]] == tr[userId := UserTracking(tr, userId)[key := e]]
  {
    var tr1 := EnsureEntry(tr, userId, controllerEAId, ticket, now);
    var key := TradeKey(controllerEAId, ticket);
    assert tr1[userId][key := e] == UserTracking(tr, userId)[key := e];
  }

  /** Storing one entry under one user leaves every other user and every other trade in place. */
  lemma StoreFrame(tr: Tracking, userId: string, key: string, e: Entry, r: Tracking)
    requires r == tr[userId := UserTracking(tr, userId)[key := e]]
    ensures forall u :: u in r <==> u in tr || u == userId
    ensures forall u :: u in tr && u != userId ==> r[u] == tr[u]
    ensures forall k :: k in r[userId] <==> k in UserTracking(tr, userId) || k == key
    ensures forall k :: k in UserTracking(tr, userId) && k != key ==> r[userId][k] == tr[userId][k]
  {
  }

  /** Within the addressed trade, only the addressed prop's copy changes, and it takes the new status. */
  lemma UpdateCopyOthers(tr: Tracking, userId: string, controllerEAId: string, ticket: nat, propEAId: string,
                         status: Status, propTicket: nat, error: string, requestId: Option<RequestId>, now: int)
    ensures var r := UpdateCopy(tr, userId, controllerEAId, ticket, propEAId, status, propTicket, error, requestId, now);
      var key := TradeKey(controllerEAId, ticket);
      userId in r && key in r[userId] && propEAId in r[userId][key].copies &&
      r[userId][key].copies[propEAId].status == status &&
      forall p :: p in r[userId][key].copies && p != propEAId ==>
        userId in tr && key in tr[userId] && p in tr[userId][key].copies &&
        r[userId][key].copies[p] == tr[userId][key].copies[p]
  {
    var key := TradeKey(controllerEAId, ticket);
    var tr1: Tracking := EnsureEntry(tr, userId, controllerEAId, ticket, now);
    var e: Entry := tr1[userId][key];
    var e2 := UpdateEntry(e, propEAId, status, propTicket, error, requestId, now);
    var r: Tracking := UpdateCopy(tr, userId, controllerEAId, ticket, propEAId, status, propTicket, error, requestId, now);
    assert r[userId][key] == e2;
    forall p | p in e2.copies && p != propEAId
      ensures userId in tr && key in tr[userId] && p in tr[userId][key].copies && e2.copies[p] == tr[userId][key].copies[p]
    {
      assert p in e.copies;
      assert !(userId in tr && key in tr[userId]) ==> e.copies == map[];
    }
  }

  // ---------------------------------------------------------------- isAlreadyCopied

  /** `isAlreadyCopied`: skip a prop whose copy succeeded, or is pending with a request still
      waiting for its answer; send when there is no copy, it failed, or every request of a
      pending copy has been answered, timed out or cleared. */
  function IsAlreadyCopied(tr: Tracking, pending: PendingTable, userId: string, controllerEAId: string,
                           ticket: nat, propEAId: string): (r: bool)
    ensures r <==>
              userId in tr && TradeKey(controllerEAId, ticket) in tr[userId] &&
              propEAId in tr[userId][TradeKey(controllerEAId, ticket)].copies &&
              (var c := tr[userId][TradeKey(controllerEAId, ticket)].copies[propEAId];
               c.status == Success || (c.status == Pending && AnyPending(pending, c.requestIds)))
  {
    if userId !in tr then false
    else
      var key := TradeKey(controllerEAId, ticket);
      if key !in tr[userId] then false
      else
        var entry := tr[userId][key];
        if propEAId !in entry.copies then false
        else
          var copy := entry.copies[propEAId];
          if copy.status == Success then true
          else if copy.status == Pending then
            if |copy.requestIds| == 0 then false else AnyPending(pending, copy.requestIds)
          else false
  }

  // ---------------------------------------------------------------- getCopyStatusDisplay

  datatype DisplayStatus = NotCopied | AllSucceeded | AllFailed | SomePending | Partial

  datatype Display = Display(status: DisplayStatus, text: string)

  /** `getCopyStatusDisplay`, by priority: no entry or no copies; then all succeeded; then all
      failed; then some pending; else a mix of successes and failures. The icon is not modelled. */
  function GetCopyStatusDisplay(tr: Tracking, userId: string, controllerEAId: string, ticket: nat): (d: Display)
    ensures d.status == NotCopied ==> d.text == "Not Copied"
  {
    var key := TradeKey(controllerEAId, ticket);
    if userId !in tr || key !in tr[userId] then Display(NotCopied, "Not Copied")
    else
      var e := tr[userId][key];
      if e.totalPropEAs == 0 then Display(NotCopied, "Not Copied")
      else if e.successCount == e.totalPropEAs then Display(AllSucceeded, "Success")
      else if e.failedCount == e.totalPropEAs then Display(AllFailed, "Failed")
      else if e.pendingCount > 0 then
        Display(SomePending, NatToString(e.successCount) + "/" + NatToString(e.totalPropEAs) + " (Pending)")
      else Display(Partial, NatToString(e.successCount) + "/" + NatToString(e.totalPropEAs))
  }

  /** What the display means in terms of the copies themselves, given counters that agree with them. */
  lemma DisplayMeaning(tr: Tracking, userId: string, controllerEAId: string, ticket: nat)
    requires TrackingInvariant(tr)
    ensures var key := TradeKey(controllerEAId, ticket);
      var d := GetCopyStatusDisplay(tr, userId, controllerEAId, ticket);
      var copies := if userId in tr && key in tr[userId] then tr[userId][key].copies else map[];
      (d.status == NotCopied <==> |copies| == 0) &&
      (d.status == AllSucceeded <==> |copies| > 0 && forall p :: p in copies ==> copies[p].status == Success) &&
      (d.status == AllFailed <==> |copies| > 0 && forall p :: p in copies ==> copies[p].status == Failed) &&
      (d.status == SomePending <==> exists p :: p in copies && copies[p].status == Pending) &&
      (d.status == Partial <==>
         (exists p :: p in copies && copies[p].status == Success) &&
         (exists p :: p in copies && copies[p].status == Failed) &&
         forall p :: p in copies ==> copies[p].status != Pending)
  {
    var key := TradeKey(controllerEAId, ticket);
    var copies := if userId in tr && key in tr[userId] then tr[userId][key].copies else map[];
    CountIsTotal(copies, Success);
    CountIsTotal(copies, Failed);
    CountIsTotal(copies, Pending);
    CountsPartition(copies);
  }

  // ---------------------------------------------------------------- copying one trade

  /** One controller trade to copy: a position (`openPrice` absent) or a pending order. */
  datatype CopyJob = CopyJob(userId: string, controllerEAId: string, ticket: nat, symbol: string, kind: string,
                             volume: int, openPrice: Option<int>, sl: int, tp: int)

  function PositionJob(ctrl: EA, p: Position): CopyJob {
    CopyJob(ctrl.userId, ctrl.id, p.ticket, p.symbol, p.kind, p.volume, None, p.stopLoss, p.takeProfit)
  }

  function OrderJob(ctrl: EA, o: Order): CopyJob {
    CopyJob(ctrl.userId, ctrl.id, o.ticket, o.symbol, o.kind, o.volume, Some(o.priceOpen), o.stopLoss, o.takeProfit)
  }

  /** The comment a copy carries, naming the controller ticket. */
  function CopyComment(ticket: nat): string {
    "Copy:" + NatToString(ticket)
  }

  /** The open request for a job: no jitter is ever passed, so it carries the builders' default 0. */
  function JobRequest(job: CopyJob, rid: RequestId, now: int): (r: TradeRequest)
    ensures WellFormed(r) && r.requestId == rid && r.controllerTicket == job.ticket && r.jitterSeconds == Some(0)
    ensures r.subtype == (if job.openPrice.None? then OpenPos else OpenOrd)
    ensures TimeoutMs(0, r.jitterSeconds) == REQUEST_TIMEOUT
  {
    if job.openPrice.None? then
      BuildOpenPositionRequest(job.kind, job.volume, job.sl, job.tp, CopyComment(job.ticket), job.ticket, job.symbol, 0, rid, now)
    else
      BuildOpenOrderRequest(job.kind, job.volume, job.openPrice.value, job.sl, job.tp, CopyComment(job.ticket),
                            job.ticket, job.symbol, 0, rid, now)
  }

  /** The state the copier reads and changes: the tracking, the correlator's table and its id source. */
  datatype World = World(tracking: Tracking, pending: PendingTable, nextId: nat)

  predicate WorldInvariant(w: World) {
    TrackingInvariant(w.tracking) && forall id :: id in w.pending ==> id < w.nextId
  }

  /** A request written to a prop's socket, with the timer armed for it. */
  datatype Sent = Sent(sock: Sock, request: TradeRequest, timeoutMs: int)

  datatype Run = Run(world: World, sent: seq<Sent>)

  function AlreadyCopied(w: World, job: CopyJob, propEAId: string): bool {
    IsAlreadyCopied(w.tracking, w.pending, job.userId, job.controllerEAId, job.ticket, propEAId)
  }

  function CopyCallback(job: CopyJob, propEAId: string, rid: RequestId): Callback {
    TrackCopy(job.userId, job.controllerEAId, job.ticket, propEAId, rid)
  }

  /** The copy callback: success records the prop's ticket, failure the error, both under the request id. */
  function OnCopyOutcome(tr: Tracking, cb: Callback, outcome: Outcome, now: int): Tracking {
    match cb
    case TrackCopy(u, c, t, p, rid) =>
      if outcome.success then UpdateCopy(tr, u, c, t, p, Success, outcome.ticket, "", Some(rid), now)
      else UpdateCopy(tr, u, c, t, p, Failed, 0, outcome.error, Some(rid), now)
    case LogAction(_, _) => tr
  }

  /** The body of the per-prop loop of `copyPositionToPropEAs` / `copyOrderToPropEAs`. */
  function CopyToProp(w: World, job: CopyJob, prop: EA, now: int): Run {
    if AlreadyCopied(w, job, prop.id) then Run(w, [])
    else
      var rid := w.nextId;
      var req := JobRequest(job, rid, now);
      var cb := CopyCallback(job, prop.id, rid);
      var marked := UpdateCopy(w.tracking, job.userId, job.controllerEAId, job.ticket, prop.id, Pending, 0, "", Some(rid), now);
      if prop.socket.None? then
        Run(World(OnCopyOutcome(marked, cb, NOT_CONNECTED, now), w.pending, rid + 1), [])
      else
        Run(World(marked, w.pending[rid := PendingRequest(req, now, cb, prop.id)], rid + 1),
            [Sent(prop.socket.value, req, TimeoutMs(0, req.jitterSeconds))])
  }

  /** The per-prop loop, prop after prop. */
  function CopyToProps(w: World, job: CopyJob, props: seq<Found>, now: int): Run
    decreases |props|
  {
    if |props| == 0 then Run(w, [])
    else
      var before := CopyToProps(w, job, props[..|props| - 1], now);
      var step := CopyToProp(before.world, job, props[|props| - 1].ea, now);
      Run(step.world, before.sent + step.sent)
  }

  /** The tracking entry is fetched or created and labelled with the trade's symbol, type and volume. */
  function Annotate(w: World, job: CopyJob, now: int): World {
    var tr: Tracking := EnsureEntry(w.tracking, job.userId, job.controllerEAId, job.ticket, now);
    var key := TradeKey(job.controllerEAId, job.ticket);
    var e: Entry := tr[job.userId][key];
    w.(tracking := tr[job.userId := tr[job.userId][key := e.(symbol := job.symbol, kind := job.kind, volume := job.volume)]])
  }

  /** `copyPositionToPropEAs` / `copyOrderToPropEAs` for one trade. */
  function CopyTrade(w: World, job: CopyJob, props: seq<Found>, now: int): Run {
    CopyToProps(Annotate(w, job, now), job, props, now)
  }

  /** Per prop: an already-copied prop gets nothing and changes nothing. Any other prop gets one
      new request id, recorded in its copy's history while the copy is marked pending; with a
      socket the request waits in the table and is written once, without one the callback marks
      the copy failed at once and nothing is written. */
  lemma CopyToPropOutcome(w: World, job: CopyJob, prop: EA, now: int)
    requires WorldInvariant(w)
    ensures var r := CopyToProp(w, job, prop, now);
      var key := TradeKey(job.controllerEAId, job.ticket);
      WorldInvariant(r.world) &&
      (AlreadyCopied(w, job, prop.id) ==> r == Run(w, [])) &&
      (!AlreadyCopied(w, job, prop.id) ==>
         r.world.nextId == w.nextId + 1 &&
         w.nextId !in w.pending &&
         w.nextId in r.world.tracking[job.userId][key].copies[prop.id].requestIds &&
         (prop.socket.Some? ==>
            r.sent == [Sent(prop.socket.value, JobRequest(job, w.nextId, now), REQUEST_TIMEOUT)] &&
            r.world.pending == w.pending[w.nextId := PendingRequest(JobRequest(job, w.nextId, now), now,
                                                                     CopyCallback(job, prop.id, w.nextId), prop.id)] &&
            r.world.tracking[job.userId][key].copies[prop.id].status == Pending) &&
         (prop.socket.None? ==>
            r.sent == [] && r.world.pending == w.pending &&
            r.world.tracking[job.userId][key].copies[prop.id] ==
              CopyRecord(Failed, 0, NOT_CONNECTED.error, now,
                         r.world.tracking[job.userId][key].copies[prop.id].requestIds)))
  {
    if !AlreadyCopied(w, job, prop.id) {
      if prop.socket.None? {
        CopyToPropUnconnected(w, job, prop, now);
      } else {
        CopyToPropConnected(w, job, prop, now);
      }
    }
  }

  /** A prop not served yet that has a socket: the request is written and waits in the table. */
  lemma CopyToPropConnected(w: World, job: CopyJob, prop: EA, now: int)
    requires WorldInvariant(w) && !AlreadyCopied(w, job, prop.id) && prop.socket.Some?
    ensures var r := CopyToProp(w, job, prop, now);
      var key := TradeKey(job.controllerEAId, job.ticket);
      WorldInvariant(r.world) &&
      r.world.nextId == w.nextId + 1 &&
      w.nextId !in w.pending &&
      w.nextId in r.world.tracking[job.userId][key].copies[prop.id].requestIds &&
      r.sent == [Sent(prop.socket.value, JobRequest(job, w.nextId, now), REQUEST_TIMEOUT)] &&
      r.world.pending == w.pending[w.nextId := PendingRequest(JobRequest(job, w.nextId, now), now,
                                                               CopyCallback(job, prop.id, w.nextId), prop.id)] &&
      r.world.tracking[job.userId][key].copies[prop.id].status == Pending
  {
    var rid := w.nextId;
    UpdateCopyInvariant(w.tracking, job.userId, job.controllerEAId, job.ticket, prop.id, Pending, 0, "", Some(rid), now);
    UpdateCopyOthers(w.tracking, job.userId, job.controllerEAId, job.ticket, prop.id, Pending, 0, "", Some(rid), now);
  }

  /** A prop not served yet without a socket: nothing is written and the copy fails at once. */
  lemma CopyToPropUnconnected(w: World, job: CopyJob, prop: EA, now: int)
    requires WorldInvariant(w) && !AlreadyCopied(w, job, prop.id) && prop.socket.None?
    ensures var r := CopyToProp(w, job, prop, now);
      var key := TradeKey(job.controllerEAId, job.ticket);
      WorldInvariant(r.world) &&
      r.world.nextId == w.nextId + 1 &&
      w.nextId !in w.pending &&
      w.nextId in r.world.tracking[job.userId][key].copies[prop.id].requestIds &&
      r.sent == [] && r.world.pending == w.pending &&
      r.world.tracking[job.userId][key].copies[prop.id] ==
        CopyRecord(Failed, 0, NOT_CONNECTED.error, now,
                   r.world.tracking[job.userId][key].copies[prop.id].requestIds)
  {
    var rid := w.nextId;
    var marked := UpdateCopy(w.tracking, job.userId, job.controllerEAId, job.ticket, prop.id, Pending, 0, "", Some(rid), now);
    UpdateCopyInvariant(w.tracking, job.userId, job.controllerEAId, job.ticket, prop.id, Pending, 0, "", Some(rid), now);
    UpdateCopyOthers(w.tracking, job.userId, job.controllerEAId, job.ticket, prop.id, Pending, 0, "", Some(rid), now);
    UpdateCopyInvariant(marked, job.userId, job.controllerEAId, job.ticket, prop.id, Failed, 0, NOT_CONNECTED.error, Some(rid), now);
    UpdateCopyOthers(marked, job.userId, job.controllerEAId, job.ticket, prop.id, Failed, 0, NOT_CONNECTED.error, Some(rid), now);
  }

  /** `updateCopyStatus` leaves every other copy (another user, trade or prop) in place and unchanged. */
  lemma UpdateCopyElsewhere(tr: Tracking, userId: string, controllerEAId: string, ticket: nat, propEAId: string,
                            status: Status, propTicket: nat, error: string, requestId: Option<RequestId>, now: int,
                            u: string, k: string, p: string)
    requires u in tr && k in tr[u] && p in tr[u][k].copies
    requires (u, k, p) != (userId, TradeKey(controllerEAId, ticket), propEAId)
    ensures var r := UpdateCopy(tr, userId, controllerEAId, ticket, propEAId, status, propTicket, error, requestId, now);
      u in r && k in r[u] && p in r[u][k].copies && r[u][k].copies[p] == tr[u][k].copies[p]
  {
    var key := TradeKey(controllerEAId, ticket);
    var tr1: Tracking := EnsureEntry(tr, userId, controllerEAId, ticket, now);
    var r: Tracking := UpdateCopy(tr, userId, controllerEAId, ticket, propEAId, status, propTicket, error, requestId, now);
    if u == userId && k == key {
      assert tr1[u][k] == tr[u][k];
      assert r[u][k] == UpdateEntry(tr1[u][k], propEAId, status, propTicket, error, requestId, now);
    } else {
      assert r[u][k] == tr1[u][k] == tr[u][k];
    }
  }

  /** Labelling the entry keeps the invariant, the table and the counter. */
  lemma AnnotateKeeps(w: World, job: CopyJob, now: int)
    requires WorldInvariant(w)
    ensures var a := Annotate(w, job, now);
      WorldInvariant(a) && a.pending == w.pending && a.nextId == w.nextId
  {
    var key := TradeKey(job.controllerEAId, job.ticket);
    GetOrCreate(w.tracking, job.userId, job.controllerEAId, job.ticket, now, now);
    var tr: Tracking := EnsureEntry(w.tracking, job.userId, job.controllerEAId, job.ticket, now);
    RelabelKeeps(tr, job.userId, key, job.symbol, job.kind, job.volume);
  }

  lemma RelabelKeeps(tr: Tracking, userId: string, key: string, symbol: string, kind: string, volume: int)
    requires TrackingInvariant(tr) && userId in tr && key in tr[userId]
    ensures TrackingInvariant(tr[userId := tr[userId][key := tr[userId][key].(symbol := symbol, kind := kind, volume := volume)]])
  {
    var r: Tracking := tr[userId := tr[userId][key := tr[userId][key].(symbol := symbol, kind := kind, volume := volume)]];
    forall u: string, k: string | u in r && k in r[u]
      ensures k == TradeKey(r[u][k].controllerEAId, r[u][k].controllerTicket) &&
              Counted(r[u][k]) &&
              forall p :: p in r[u][k].copies ==> NoDuplicates(r[u][k].copies[p].requestIds)
    {
      if u == userId && k == key {
        assert r[u][k] == tr[u][k].(symbol := symbol, kind := kind, volume := volume);
      } else {
        assert r[u][k] == tr[u][k];
      }
    }
  }

  /** Labelling the entry changes no copy, so no prop's "already copied" verdict. */
  lemma AnnotateSameVerdict(w: World, job: CopyJob, now: int, j: CopyJob, pid: string)
    ensures AlreadyCopied(Annotate(w, job, now), j, pid) <==> AlreadyCopied(w, j, pid)
  {
    var key := TradeKey(job.controllerEAId, job.ticket);
    var kj := TradeKey(j.controllerEAId, j.ticket);
    var tr: Tracking := EnsureEntry(w.tracking, job.userId, job.controllerEAId, job.ticket, now);
    var a := Annotate(w, job, now);
    var e: Entry := tr[job.userId][key];
    assert a.tracking == tr[job.userId := tr[job.userId][key := e.(symbol := job.symbol, kind := job.kind, volume := job.volume)]];
    if j.userId in a.tracking && kj in a.tracking[j.userId] {
      assert a.tracking[j.userId][kj].copies == tr[j.userId][kj].copies;
      if !(j.userId in w.tracking && kj in w.tracking[j.userId]) {
        assert tr[j.userId][kj].copies == map[];
      } else {
        assert tr[j.userId][kj] == w.tracking[j.userId][kj];
      }
    }
  }

  /** A prop whose copy is already done or waiting stays so after any prop is served for any trade. */
  lemma CopyToPropKeeps(w: World, job: CopyJob, prop: EA, now: int, j: CopyJob, pid: string)
    requires WorldInvariant(w) && AlreadyCopied(w, j, pid)
    ensures AlreadyCopied(CopyToProp(w, job, prop, now).world, j, pid)
  {
    if !AlreadyCopied(w, job, prop.id) {
      var rid := w.nextId;
      var kj := TradeKey(j.controllerEAId, j.ticket);
      var key := TradeKey(job.controllerEAId, job.ticket);
      assert (j.userId, kj, pid) != (job.userId, key, prop.id);
      var marked := UpdateCopy(w.tracking, job.userId, job.controllerEAId, job.ticket, prop.id, Pending, 0, "", Some(rid), now);
      UpdateCopyElsewhere(w.tracking, job.userId, job.controllerEAId, job.ticket, prop.id, Pending, 0, "", Some(rid), now,
                          j.userId, kj, pid);
      if prop.socket.None? {
        UpdateCopyElsewhere(marked, job.userId, job.controllerEAId, job.ticket, prop.id, Failed, 0, NOT_CONNECTED.error,
                            Some(rid), now, j.userId, kj, pid);
      } else {
        var c := w.tracking[j.userId][kj].copies[pid];
        if c.status == Pending {
          var i :| 0 <= i < |c.requestIds| && c.requestIds[i] in w.pending;
          assert c.requestIds[i] in CopyToProp(w, job, prop, now).world.pending;
        }
      }
    }
  }

  lemma CopyToPropInvariant(w: World, job: CopyJob, prop: EA, now: int)
    requires WorldInvariant(w)
    ensures WorldInvariant(CopyToProp(w, job, prop, now).world)
  {
    CopyToPropOutcome(w, job, prop, now);
  }

  /** A prop with a socket, once served, has its copy done or waiting. */
  lemma CopyToPropCovers(w: World, job: CopyJob, prop: EA, now: int)
    requires WorldInvariant(w) && prop.socket.Some?
    ensures AlreadyCopied(CopyToProp(w, job, prop, now).world, job, prop.id)
  {
    CopyToPropOutcome(w, job, prop, now);
    if !AlreadyCopied(w, job, prop.id) {
      var after := CopyToProp(w, job, prop, now).world;
      var key := TradeKey(job.controllerEAId, job.ticket);
      var c := after.tracking[job.userId][key].copies[prop.id];
      var i :| 0 <= i < |c.requestIds| && c.requestIds[i] == w.nextId;
      assert c.requestIds[i] in after.pending;
    }
  }

  /** Serving the props for one trade keeps the invariant and every copy already done or waiting. */
  lemma {:induction false} CopyToPropsKeeps(w: World, job: CopyJob, props: seq<Found>, now: int)
    requires WorldInvariant(w)
    ensures var r := CopyToProps(w, job, props, now);
      WorldInvariant(r.world) &&
      forall j: CopyJob, pid: string :: AlreadyCopied(w, j, pid) ==> AlreadyCopied(r.world, j, pid)
    decreases |props|
  {
    if |props| > 0 {
      var n := |props| - 1;
      var before := CopyToProps(w, job, props[..n], now);
      CopyToPropsKeeps(w, job, props[..n], now);
      var after := CopyToProp(before.world, job, props[n].ea, now).world;
      assert CopyToProps(w, job, props, now).world == after;
      CopyToPropInvariant(before.world, job, props[n].ea, now);
      forall j: CopyJob, pid: string | AlreadyCopied(w, j, pid)
        ensures AlreadyCopied(after, j, pid)
      {
        CopyToPropKeeps(before.world, job, props[n].ea, now, j, pid);
      }
    }
  }

  /** After the props are served for one trade, every prop that has a socket has its copy done or waiting. */
  lemma {:induction false} CopyToPropsCovers(w: World, job: CopyJob, props: seq<Found>, now: int)
    requires WorldInvariant(w)
    ensures var r := CopyToProps(w, job, props, now);
      forall i :: 0 <= i < |props| && props[i].ea.socket.Some? ==> AlreadyCopied(r.world, job, props[i].ea.id)
    decreases |props|
  {
    if |props| > 0 {
      var n := |props| - 1;
      var before := CopyToProps(w, job, props[..n], now);
      CopyToPropsCovers(w, job, props[..n], now);
      CopyToPropsKeeps(w, job, props[..n], now);
      var after := CopyToProp(before.world, job, props[n].ea, now).world;
      forall i | 0 <= i < |props| && props[i].ea.socket.Some?
        ensures AlreadyCopied(after, job, props[i].ea.id)
      {
        if i < n {
          assert props[..n][i] == props[i];
          CopyToPropKeeps(before.world, job, props[n].ea, now, job, props[i].ea.id);
        } else {
          CopyToPropCovers(before.world, job, props[n].ea, now);
        }
      }
    }
  }

  /** When every prop's copy is already done or waiting, serving them changes nothing and sends nothing. */
  lemma {:induction false} CopyToPropsSkipsAll(w: World, job: CopyJob, props: seq<Found>, now: int)
    requires forall i :: 0 <= i < |props| ==> AlreadyCopied(w, job, props[i].ea.id)
    ensures CopyToProps(w, job, props, now) == Run(w, [])
    decreases |props|
  {
    if |props| > 0 {
      var n := |props| - 1;
      CopiedPrefix(w, job, props, n);
      CopyToPropsSkipsAll(w, job, props[..n], now);
      CopyToPropSkips(w, job, props, n, now);
      assert CopyToProps(w, job, props, now) ==
               Run(CopyToProp(w, job, props[n].ea, now).world, [] + CopyToProp(w, job, props[n].ea, now).sent);
    }
  }

  lemma CopiedPrefix(w: World, job: CopyJob, props: seq<Found>, n: nat)
    requires n <= |props| && forall i :: 0 <= i < |props| ==> AlreadyCopied(w, job, props[i].ea.id)
    ensures forall i :: 0 <= i < |props[..n]| ==> AlreadyCopied(w, job, props[..n][i].ea.id)
  {
    assert forall i :: 0 <= i < n ==> props[..n][i] == props[i];
  }

  lemma CopyToPropSkips(w: World, job: CopyJob, props: seq<Found>, n: nat, now: int)
    requires n < |props| && forall i :: 0 <= i < |props| ==> AlreadyCopied(w, job, props[i].ea.id)
    ensures CopyToProp(w, job, props[n].ea, now) == Run(w, [])
  {
    assert AlreadyCopied(w, job, props[n].ea.id);
  }

  /** No duplicate copies: while no answer or timeout arrives, copying the same trade again, at
      any later poll, sends nothing to a prop that has a socket. */
  lemma CopyTradeTwice(w: World, job: CopyJob, props: seq<Found>, now1: int, now2: int)
    requires WorldInvariant(w)
    requires forall i :: 0 <= i < |props| ==> props[i].ea.socket.Some?
    ensures var once := CopyTrade(w, job, props, now1);
      WorldInvariant(once.world) && CopyTrade(once.world, job, props, now2).sent == []
  {
    var a := Annotate(w, job, now1);
    AnnotateKeeps(w, job, now1);
    var once := CopyToProps(a, job, props, now1);
    CopyToPropsKeeps(a, job, props, now1);
    CopyToPropsCovers(a, job, props, now1);
    var a2 := Annotate(once.world, job, now2);
    forall i | 0 <= i < |props|
      ensures AlreadyCopied(a2, job, props[i].ea.id)
    {
      AnnotateSameVerdict(once.world, job, now2, job, props[i].ea.id);
    }
    CopyToPropsSkipsAll(a2, job, props, now2);
  }

  // ---------------------------------------------------------------- copying a controller's snapshot

  /** The trades of a controller snapshot in the order they are copied: positions, then orders. */
  function Jobs(ctrl: EA, positions: seq<Position>, orders: seq<Order>): (jobs: seq<CopyJob>)
    ensures |jobs| == |positions| + |orders|
    ensures forall i :: 0 <= i < |positions| ==> jobs[i] == PositionJob(ctrl, positions[i])
    ensures forall i :: 0 <= i < |orders| ==> jobs[|positions| + i] == OrderJob(ctrl, orders[i])
  {
    PositionJobs(ctrl, positions) + OrderJobs(ctrl, orders)
  }

  function PositionJobs(ctrl: EA, positions: seq<Position>): (jobs: seq<CopyJob>)
    ensures |jobs| == |positions| && forall i :: 0 <= i < |positions| ==> jobs[i] == PositionJob(ctrl, positions[i])
  {
    seq(|positions|, i requires 0 <= i < |positions| => PositionJob(ctrl, positions[i]))
  }

  function OrderJobs(ctrl: EA, orders: seq<Order>): (jobs: seq<CopyJob>)
    ensures |jobs| == |orders| && forall i :: 0 <= i < |orders| ==> jobs[i] == OrderJob(ctrl, orders[i])
  {
    seq(|orders|, i requires 0 <= i < |orders| => OrderJob(ctrl, orders[i]))
  }

  /** Every trade of the snapshot copied in turn, each to every prop. */
  function CopyJobs(w: World, jobs: seq<CopyJob>, props: seq<Found>, now: int): Run
    decreases |jobs|
  {
    if |jobs| == 0 then Run(w, [])
    else
      var before := CopyJobs(w, jobs[..|jobs| - 1], props, now);
      var step := CopyTrade(before.world, jobs[|jobs| - 1], props, now);
      Run(step.world, before.sent + step.sent)
  }

  /** Copying one trade keeps the invariant, and leaves every prop that has a socket with the
      trade's copy done or waiting. */
  lemma CopyTradeCovers(w: World, job: CopyJob, props: seq<Found>, now: int)
    requires WorldInvariant(w)
    ensures var r := CopyTrade(w, job, props, now);
      WorldInvariant(r.world) &&
      forall i :: 0 <= i < |props| && props[i].ea.socket.Some? ==> AlreadyCopied(r.world, job, props[i].ea.id)
  {
    AnnotateKeeps(w, job, now);
    CopyToPropsKeeps(Annotate(w, job, now), job, props, now);
    CopyToPropsCovers(Annotate(w, job, now), job, props, now);
  }

  /** Copying a trade keeps every copy, of any trade, already done or waiting. */
  lemma CopyTradeKeeps(w: World, job: CopyJob, props: seq<Found>, now: int, j: CopyJob, pid: string)
    requires WorldInvariant(w) && AlreadyCopied(w, j, pid)
    ensures AlreadyCopied(CopyTrade(w, job, props, now).world, j, pid)
  {
    AnnotateKeeps(w, job, now);
    AnnotateSameVerdict(w, job, now, j, pid);
    CopyToPropsKeeps(Annotate(w, job, now), job, props, now);
  }

  lemma {:induction false} CopyJobsInvariant(w: World, jobs: seq<CopyJob>, props: seq<Found>, now: int)
    requires WorldInvariant(w)
    ensures WorldInvariant(CopyJobs(w, jobs, props, now).world)
    decreases |jobs|
  {
    if |jobs| > 0 {
      CopyJobsInvariant(w, jobs[..|jobs| - 1], props, now);
      CopyTradeCovers(CopyJobs(w, jobs[..|jobs| - 1], props, now).world, jobs[|jobs| - 1], props, now);
    }
  }

  /** After a whole snapshot is copied, trade `k` has its copy done or waiting on prop `i` when
      that prop has a socket. */
  lemma {:induction false} CopyJobsCoversOne(w: World, jobs: seq<CopyJob>, props: seq<Found>, now: int, k: nat, i: nat)
    requires WorldInvariant(w) && k < |jobs| && i < |props| && props[i].ea.socket.Some?
    ensures AlreadyCopied(CopyJobs(w, jobs, props, now).world, jobs[k], props[i].ea.id)
    decreases |jobs|
  {
    if k < |jobs| - 1 {
      CopyJobsCoversOne(w, jobs[..|jobs| - 1], props, now, k, i);
      CopyJobsKeepsEarlier(w, jobs, props, now, k, i);
    } else {
      CopyJobsCoversLast(w, jobs, props, now, i);
    }
  }

  lemma CopyJobsKeepsEarlier(w: World, jobs: seq<CopyJob>, props: seq<Found>, now: int, k: nat, i: nat)
    requires WorldInvariant(w) && k < |jobs| - 1 && i < |props|
    requires AlreadyCopied(CopyJobs(w, jobs[..|jobs| - 1], props, now).world, jobs[..|jobs| - 1][k], props[i].ea.id)
    ensures AlreadyCopied(CopyJobs(w, jobs, props, now).world, jobs[k], props[i].ea.id)
  {
    var n := |jobs| - 1;
    var before := CopyJobs(w, jobs[..n], props, now).world;
    CopyJobsInvariant(w, jobs[..n], props, now);
    assert jobs[..n][k] == jobs[k];
    CopyTradeKeeps(before, jobs[n], props, now, jobs[k], props[i].ea.id);
    CopyJobsLast(w, jobs, props, now, jobs[k], props[i].ea.id);
  }

  lemma CopyJobsCoversLast(w: World, jobs: seq<CopyJob>, props: seq<Found>, now: int, i: nat)
    requires WorldInvariant(w) && 0 < |jobs| && i < |props| && props[i].ea.socket.Some?
    ensures AlreadyCopied(CopyJobs(w, jobs, props, now).world, jobs[|jobs| - 1], props[i].ea.id)
  {
    var n := |jobs| - 1;
    var before := CopyJobs(w, jobs[..n], props, now).world;
    CopyJobsInvariant(w, jobs[..n], props, now);
    CopyTradeCovers(before, jobs[n], props, now);
    CopyJobsLast(w, jobs, props, now, jobs[n], props[i].ea.id);
  }

  lemma CopyJobsLast(w: World, jobs: seq<CopyJob>, props: seq<Found>, now: int, j: CopyJob, pid: string)
    requires |jobs| > 0
    requires AlreadyCopied(CopyTrade(CopyJobs(w, jobs[..|jobs| - 1], props, now).world, jobs[|jobs| - 1], props, now).world, j, pid)
    ensures AlreadyCopied(CopyJobs(w, jobs, props, now).world, j, pid)
  {
  }

  /** A copy that is done or waiting, of any trade, stays so while a whole snapshot is copied. */
  lemma {:induction false} CopyJobsKeeps(w: World, jobs: seq<CopyJob>, props: seq<Found>, now: int, j: CopyJob, pid: string)
    requires WorldInvariant(w) && AlreadyCopied(w, j, pid)
    ensures AlreadyCopied(CopyJobs(w, jobs, props, now).world, j, pid)
    decreases |jobs|
  {
    if |jobs| > 0 {
      var n := |jobs| - 1;
      CopyJobsKeeps(w, jobs[..n], props, now, j, pid);
      CopyJobsInvariant(w, jobs[..n], props, now);
      CopyTradeKeeps(CopyJobs(w, jobs[..n], props, now).world, jobs[n], props, now, j, pid);
      CopyJobsLast(w, jobs, props, now, j, pid);
    }
  }

  /** After a whole snapshot is copied, every trade of it has its copy done or waiting on every
      prop that has a socket. */
  lemma CopyJobsCovers(w: World, jobs: seq<CopyJob>, props: seq<Found>, now: int)
    requires WorldInvariant(w)
    ensures var r := CopyJobs(w, jobs, props, now);
      WorldInvariant(r.world) &&
      forall k, i :: 0 <= k < |jobs| && 0 <= i < |props| && props[i].ea.socket.Some? ==>
        AlreadyCopied(r.world, jobs[k], props[i].ea.id)
  {
    CopyJobsInvariant(w, jobs, props, now);
    forall k, i | 0 <= k < |jobs| && 0 <= i < |props| && props[i].ea.socket.Some?
      ensures AlreadyCopied(CopyJobs(w, jobs, props, now).world, jobs[k], props[i].ea.id)
    {
      CopyJobsCoversOne(w, jobs, props, now, k, i);
    }
  }

  /** When every trade's copy is done or waiting on every prop, copying the snapshot sends nothing
      and changes no verdict. */
  lemma {:induction false} CopyJobsSkipsAll(w: World, jobs: seq<CopyJob>, props: seq<Found>, now: int)
    requires forall k, i :: 0 <= k < |jobs| && 0 <= i < |props| ==> AlreadyCopied(w, jobs[k], props[i].ea.id)
    ensures var r := CopyJobs(w, jobs, props, now);
      r.sent == [] &&
      forall j: CopyJob, pid: string :: AlreadyCopied(r.world, j, pid) <==> AlreadyCopied(w, j, pid)
    decreases |jobs|
  {
    if |jobs| > 0 {
      var n := |jobs| - 1;
      assert forall k :: 0 <= k < n ==> jobs[..n][k] == jobs[k];
      var before := CopyJobs(w, jobs[..n], props, now);
      CopyJobsSkipsAll(w, jobs[..n], props, now);
      var a := Annotate(before.world, jobs[n], now);
      forall j: CopyJob, pid: string
        ensures AlreadyCopied(a, j, pid) <==> AlreadyCopied(w, j, pid)
      {
        AnnotateSameVerdict(before.world, jobs[n], now, j, pid);
      }
      CopyToPropsSkipsAll(a, jobs[n], props, now);
    }
  }

  /** No duplicate copies across polls: while no answer or timeout arrives, a second pass over
      the same snapshot, at any later time, sends nothing when every prop has a socket. */
  lemma SnapshotTwice(w: World, jobs: seq<CopyJob>, props: seq<Found>, now1: int, now2: int)
    requires WorldInvariant(w)
    requires forall i :: 0 <= i < |props| ==> props[i].ea.socket.Some?
    ensures var once := CopyJobs(w, jobs, props, now1);
      WorldInvariant(once.world) && CopyJobs(once.world, jobs, props, now2).sent == []
  {
    CopyJobsCovers(w, jobs, props, now1);
    CopyJobsSkipsAll(CopyJobs(w, jobs, props, now1).world, jobs, props, now2);
  }

  /** The step for a prop not already copied, spelled out from its pieces. */
  lemma SentCopy(w: World, job: CopyJob, prop: EA, now: int, marked: Tracking, after: World, sent: seq<Sent>)
    requires !AlreadyCopied(w, job, prop.id)
    requires marked == UpdateCopy(w.tracking, job.userId, job.controllerEAId, job.ticket, prop.id, Pending, 0, "",
                                  Some(w.nextId), now)
    requires after.nextId == w.nextId + 1
    requires prop.socket.None? ==>
               after.tracking == OnCopyOutcome(marked, CopyCallback(job, prop.id, w.nextId), NOT_CONNECTED, now) &&
               after.pending == w.pending && sent == []
    requires prop.socket.Some? ==>
               after.tracking == marked &&
               after.pending == w.pending[w.nextId := PendingRequest(JobRequest(job, w.nextId, now), now,
                                                                      CopyCallback(job, prop.id, w.nextId), prop.id)] &&
               sent == [Sent(prop.socket.value, JobRequest(job, w.nextId, now), REQUEST_TIMEOUT)]
    ensures Run(after, sent) == CopyToProp(w, job, prop, now)
  {
  }

  /** The prop EAs of a user among the registered EAs, in registration order; with `connectedOnly`,
      only the connected ones. */
  function UserProps(fs: seq<Found>, userId: string, connectedOnly: bool): (r: seq<Found>)
    ensures |r| <= |fs|
    ensures forall f :: f in r <==> f in fs && f.ea.userId == userId && (connectedOnly ==> f.ea.connected)
    decreases |fs|
  {
    if |fs| == 0 then []
    else
      var rest := UserProps(fs[..|fs| - 1], userId, connectedOnly);
      var f := fs[|fs| - 1];
      assert forall g :: g in fs <==> g in fs[..|fs| - 1] || g == f by {
        assert fs == fs[..|fs| - 1] + [f];
      }
      if f.ea.userId == userId && (!connectedOnly || f.ea.connected) then rest + [f] else rest
  }

  lemma JobsAddPosition(ctrl: EA, ps: seq<Position>, p: Position)
    ensures PositionJobs(ctrl, ps + [p]) == PositionJobs(ctrl, ps) + [PositionJob(ctrl, p)]
  {
  }

  lemma JobsAddOrder(ctrl: EA, os: seq<Order>, o: Order)
    ensures OrderJobs(ctrl, os + [o]) == OrderJobs(ctrl, os) + [OrderJob(ctrl, o)]
  {
  }

  /** Copying one more trade after a snapshot. */
  lemma CopyJobsSnoc(w: World, jobs: seq<CopyJob>, job: CopyJob, props: seq<Found>, now: int)
    ensures var before := CopyJobs(w, jobs, props, now);
      var step := CopyTrade(before.world, job, props, now);
      CopyJobs(w, jobs + [job], props, now) == Run(step.world, before.sent + step.sent)
  {
    assert (jobs + [job])[..|jobs|] == jobs;
  }

  lemma AppendAssoc<T>(a: seq<T>, b: seq<T>, x: T)
    ensures a + (b + [x]) == (a + b) + [x]
  {
  }

  lemma TakeSnoc<T>(s: seq<T>, i: nat)
    requires i < |s|
    ensures s[..i + 1] == s[..i] + [s[i]]
  {
  }

  // ---------------------------------------------------------------- getTrackingStats

  /** How `getTrackingStats` classes an entry, by its counters and in this priority. */
  datatype StatsClass = SuccessOnly | FailedOnly | PartialCopy | NoCopies

  function Classify(e: Entry): StatsClass {
    if e.successCount == e.totalPropEAs && e.totalPropEAs > 0 then SuccessOnly
    else if e.failedCount == e.totalPropEAs && e.totalPropEAs > 0 then FailedOnly
    else if e.totalPropEAs > 0 then PartialCopy
    else NoCopies
  }

  function ClassSet(trades: map<string, Entry>, c: StatsClass): set<string> {
    set k | k in trades && Classify(trades[k]) == c
  }

  datatype Stats = Stats(totalTrades: nat, allSuccess: nat, allFailed: nat, partial: nat)

  /** What the statistics mean for entries whose counters agree with their copies: every trade
      falls in exactly one class, so the three counts add up to at most the trades; a trade is
      all-success (all-failed) exactly when it has copies and all succeeded (failed); a partial
      one has copies that neither all succeeded nor all failed. */
  lemma ClassMeaning(e: Entry)
    requires Counted(e)
    ensures Classify(e) == SuccessOnly <==> |e.copies| > 0 && forall p :: p in e.copies ==> e.copies[p].status == Success
    ensures Classify(e) == FailedOnly <==> |e.copies| > 0 && forall p :: p in e.copies ==> e.copies[p].status == Failed
    ensures Classify(e) == PartialCopy <==>
              (exists p :: p in e.copies && e.copies[p].status != Success) &&
              (exists p :: p in e.copies && e.copies[p].status != Failed)
    ensures Classify(e) == NoCopies <==> |e.copies| == 0
  {
    CountIsTotal(e.copies, Success);
    CountIsTotal(e.copies, Failed);
  }

  lemma StatsAddUp(trades: map<string, Entry>)
    ensures |ClassSet(trades, SuccessOnly)| + |ClassSet(trades, FailedOnly)| + |ClassSet(trades, PartialCopy)|
            + |ClassSet(trades, NoCopies)| == |trades|
  {
    var a, f, p, n := ClassSet(trades, SuccessOnly), ClassSet(trades, FailedOnly), ClassSet(trades, PartialCopy),
                      ClassSet(trades, NoCopies);
    assert a * f == {} && (a + f) * p == {} && (a + f + p) * n == {};
    assert a + f + p + n == trades.Keys;
    assert |a + f| == |a| + |f|;
    assert |a + f + p| == |a + f| + |p|;
    assert |a + f + p + n| == |a + f + p| + |n|;
  }

  // ---------------------------------------------------------------- getAllTradeHistory

  /** One row of the dashboard's copy history. */
  datatype HistoryRow = HistoryRow(userId: string, controllerEAId: string, controllerTicket: nat, propEAId: string,
                                   propTicket: nat, symbol: string, kind: string, volume: int, status: Status,
                                   error: string, attempts: nat, timestamp: int, createdAt: int)

  function RowOf(userId: string, e: Entry, propEAId: string): HistoryRow
    requires propEAId in e.copies
  {
    var c := e.copies[propEAId];
    HistoryRow(userId, e.controllerEAId, e.controllerTicket, propEAId, c.propTicket, e.symbol, e.kind, e.volume,
               c.status, c.error, |c.requestIds|, c.timestamp, e.createdAt)
  }

  /** The users whose copies are listed: the one asked for, or every user when none ("") is. */
  predicate Listed(tr: Tracking, userId: string, u: string) {
    u in tr && (userId == "" || u == userId)
  }

  /** `r` is the row of some copy of a listed user. */
  ghost predicate IsHistoryRow(tr: Tracking, userId: string, r: HistoryRow) {
    exists u, k, p :: Listed(tr, userId, u) && k in tr[u] && p in tr[u][k].copies && r == RowOf(u, tr[u][k], p)
  }

  predicate SortedDesc(rows: seq<HistoryRow>) {
    forall i, j :: 0 <= i < j < |rows| ==> rows[i].timestamp >= rows[j].timestamp
  }

  predicate DistinctRows(rows: seq<HistoryRow>) {
    forall i, j :: 0 <= i < j < |rows| ==> rows[i] != rows[j]
  }

  lemma DistinctAppend(a: seq<HistoryRow>, b: seq<HistoryRow>)
    requires DistinctRows(a) && DistinctRows(b) && forall r :: r in a ==> r !in b
    ensures DistinctRows(a + b)
  {
    forall i, j | 0 <= i < j < |a + b|
      ensures (a + b)[i] != (a + b)[j]
    {
      if j >= |a| && i < |a| {
        assert (a + b)[i] in a && (a + b)[j] in b;
      }
      if i >= |a| {
        assert (a + b)[i] == b[i - |a|] && (a + b)[j] == b[j - |a|];
      }
    }
  }

  // ---------------------------------------------------------------- the module state

  /** Counting over a set one element at a time: removing `x` from the not-yet-seen set adds one
      to the count of seen members of `s` exactly when `x` is in `s`. */
  lemma CountStep(s: set<string>, todo: set<string>, x: string)
    requires x in todo
    ensures |s - (todo - {x})| == |s - todo| + (if x in s then 1 else 0)
  {
    if x in s {
      assert s - (todo - {x}) == (s - todo) + {x};
    } else {
      assert s - (todo - {x}) == s - todo;
    }
  }

  lemma ClassStep(trades: map<string, Entry>, todo: set<string>, k: string, c: StatsClass, n: nat)
    requires k in todo && k in trades && n == |ClassSet(trades, c) - todo|
    ensures |ClassSet(trades, c) - (todo - {k})| == n + (if Classify(trades[k]) == c then 1 else 0)
  {
    CountStep(ClassSet(trades, c), todo, k);
  }

  /** The counter recomputation of `updateCopyStatus`: one pass over the copies. */
  method RecountCounters(copies: map<string, CopyRecord>) returns (success: nat, failed: nat, pending: nat)
    ensures success == StatusCount(copies, Success)
    ensures failed == StatusCount(copies, Failed)
    ensures pending == StatusCount(copies, Pending)
  {
    success, failed, pending := 0, 0, 0;
    var todo := copies.Keys;
    while todo != {}
      invariant todo <= copies.Keys
      invariant success == |StatusSet(copies, Success) - todo|
      invariant failed == |StatusSet(copies, Failed) - todo|
      invariant pending == |StatusSet(copies, Pending) - todo|
      decreases todo
    {
      var p :| p in todo;
      CountStep(StatusSet(copies, Success), todo, p);
      CountStep(StatusSet(copies, Failed), todo, p);
      CountStep(StatusSet(copies, Pending), todo, p);
      match copies[p].status {
        case Success => success := success + 1;
        case Failed => failed := failed + 1;
        case Pending => pending := pending + 1;
      }
      todo := todo - {p};
    }
    assert StatusSet(copies, Success) - {} == StatusSet(copies, Success);
    assert StatusSet(copies, Failed) - {} == StatusSet(copies, Failed);
    assert StatusSet(copies, Pending) - {} == StatusSet(copies, Pending);
  }

  /** The loop of `getTrackingStats` over one user's trades. */
  method CountClasses(trades: map<string, Entry>) returns (allSuccess: nat, allFailed: nat, partial: nat)
    ensures allSuccess == |ClassSet(trades, SuccessOnly)|
    ensures allFailed == |ClassSet(trades, FailedOnly)|
    ensures partial == |ClassSet(trades, PartialCopy)|
  {
    allSuccess, allFailed, partial := 0, 0, 0;
    var todo := trades.Keys;
    while todo != {}
      invariant todo <= trades.Keys
      invariant allSuccess == |ClassSet(trades, SuccessOnly) - todo|
      invariant allFailed == |ClassSet(trades, FailedOnly) - todo|
      invariant partial == |ClassSet(trades, PartialCopy) - todo|
      decreases todo
    {
      var k :| k in todo;
      ClassStep(trades, todo, k, SuccessOnly, allSuccess);
      ClassStep(trades, todo, k, FailedOnly, allFailed);
      ClassStep(trades, todo, k, PartialCopy, partial);
      var e := trades[k];
      ghost var c := Classify(e);
      if e.successCount == e.totalPropEAs && e.totalPropEAs > 0 {
        assert c == SuccessOnly;
        allSuccess := allSuccess + 1;
      } else if e.failedCount == e.totalPropEAs && e.totalPropEAs > 0 {
        assert c == FailedOnly;
        allFailed := allFailed + 1;
      } else if e.totalPropEAs > 0 {
        assert c == PartialCopy;
        partial := partial + 1;
      } else {
        assert c == NoCopies;
      }
      todo := todo - {k};
    }
    assert ClassSet(trades, SuccessOnly) - {} == ClassSet(trades, SuccessOnly);
    assert ClassSet(trades, FailedOnly) - {} == ClassSet(trades, FailedOnly);
    assert ClassSet(trades, PartialCopy) - {} == ClassSet(trades, PartialCopy);
  }

  /** The rows of one entry's copies. */
  method RowsOfEntry(userId: string, e: Entry) returns (rows: seq<HistoryRow>)
    ensures DistinctRows(rows)
    ensures forall r :: r in rows <==> exists p :: p in e.copies && r == RowOf(userId, e, p)
  {
    rows := [];
    var todo := e.copies.Keys;
    while todo != {}
      invariant todo <= e.copies.Keys
      invariant DistinctRows(rows)
      invariant forall r :: r in rows <==> exists p :: p in e.copies && p !in todo && r == RowOf(userId, e, p)
      decreases todo
    {
      var p :| p in todo;
      DistinctAppend(rows, [RowOf(userId, e, p)]);
      rows := rows + [RowOf(userId, e, p)];
      todo := todo - {p};
    }
  }

  /** The rows of every copy of one user's trades. */
  method RowsOfUser(userId: string, trades: map<string, Entry>) returns (rows: seq<HistoryRow>)
    requires forall k :: k in trades ==> k == TradeKey(trades[k].controllerEAId, trades[k].controllerTicket)
    ensures DistinctRows(rows)
    ensures forall r :: r in rows ==> r.userId == userId
    ensures forall r :: r in rows <==> exists k, p :: k in trades && p in trades[k].copies && r == RowOf(userId, trades[k], p)
  {
    rows := [];
    var todo := trades.Keys;
    while todo != {}
      invariant todo <= trades.Keys
      invariant DistinctRows(rows)
      invariant forall r :: r in rows <==>
                  exists k, p :: k in trades && k !in todo && p in trades[k].copies && r == RowOf(userId, trades[k], p)
      decreases todo
    {
      var k :| k in todo;
      var more := RowsOfEntry(userId, trades[k]);
      forall r | r in rows
        ensures r !in more
      {
        var k2, p2 :| k2 in trades && k2 !in todo && p2 in trades[k2].copies && r == RowOf(userId, trades[k2], p2);
        assert TradeKey(r.controllerEAId, r.controllerTicket) == k2 != k;
      }
      DistinctAppend(rows, more);
      rows := rows + more;
      todo := todo - {k};
    }
  }

  /** The rows ordered newest first. */
  method SortByTimestamp(rows: seq<HistoryRow>) returns (sorted: seq<HistoryRow>)
    requires DistinctRows(rows)
    ensures SortedDesc(sorted) && DistinctRows(sorted) && |sorted| == |rows|
    ensures forall r :: r in sorted <==> r in rows
  {
    sorted := [];
    var i := 0;
    while i < |rows|
      invariant 0 <= i <= |rows|
      invariant SortedDesc(sorted) && DistinctRows(sorted) && |sorted| == i
      invariant forall r :: r in sorted <==> r in rows[..i]
    {
      assert rows[i] !in rows[..i];
      sorted := InsertByTimestamp(sorted, rows[i]);
      TakeSnoc(rows, i);
      i := i + 1;
    }
    assert rows[..i] == rows;
  }

  /** Inserts a row after every row at least as new and before the first older one. */
  method InsertByTimestamp(sorted: seq<HistoryRow>, r: HistoryRow) returns (result: seq<HistoryRow>)
    requires SortedDesc(sorted) && DistinctRows(sorted) && r !in sorted
    ensures SortedDesc(result) && DistinctRows(result) && |result| == |sorted| + 1
    ensures forall x :: x in result <==> x in sorted || x == r
  {
    var i := 0;
    while i < |sorted| && sorted[i].timestamp >= r.timestamp
      invariant 0 <= i <= |sorted|
      invariant forall j :: 0 <= j < i ==> sorted[j].timestamp >= r.timestamp
    {
      i := i + 1;
    }
    result := sorted[..i] + [r] + sorted[i..];
    InsertedSorted(sorted, i, r, result);
    InsertedDistinct(sorted, i, r, result);
    InsertedMembers(sorted, i, r, result);
  }

  lemma InsertedAt(sorted: seq<HistoryRow>, i: nat, r: HistoryRow, result: seq<HistoryRow>)
    requires i <= |sorted| && result == sorted[..i] + [r] + sorted[i..]
    ensures |result| == |sorted| + 1 && result[i] == r
    ensures forall j :: 0 <= j < i ==> result[j] == sorted[j]
    ensures forall j :: i < j < |result| ==> result[j] == sorted[j - 1]
  {
  }

  lemma InsertedSorted(sorted: seq<HistoryRow>, i: nat, r: HistoryRow, result: seq<HistoryRow>)
    requires i <= |sorted| && result == sorted[..i] + [r] + sorted[i..]
    requires SortedDesc(sorted)
    requires forall j :: 0 <= j < i ==> sorted[j].timestamp >= r.timestamp
    requires i < |sorted| ==> sorted[i].timestamp < r.timestamp
    ensures SortedDesc(result)
  {
    InsertedAt(sorted, i, r, result);
    forall a, b | 0 <= a < b < |result|
      ensures result[a].timestamp >= result[b].timestamp
    {
      if b > i {
        assert result[b] == sorted[b - 1];
        if a == i {
          assert sorted[i].timestamp >= sorted[b - 1].timestamp;
        }
      }
    }
  }

  lemma InsertedDistinct(sorted: seq<HistoryRow>, i: nat, r: HistoryRow, result: seq<HistoryRow>)
    requires i <= |sorted| && result == sorted[..i] + [r] + sorted[i..]
    requires DistinctRows(sorted) && r !in sorted
    ensures DistinctRows(result)
  {
    InsertedAt(sorted, i, r, result);
    forall a, b | 0 <= a < b < |result|
      ensures result[a] != result[b]
    {
      if a == i {
        assert result[b] == sorted[b - 1];
      } else if b == i {
        assert result[a] == sorted[a];
      }
    }
  }

  lemma InsertedMembers(sorted: seq<HistoryRow>, i: nat, r: HistoryRow, result: seq<HistoryRow>)
    requires i <= |sorted| && result == sorted[..i] + [r] + sorted[i..]
    ensures forall x :: x in result <==> x in sorted || x == r
  {
    assert sorted == sorted[..i] + sorted[i..];
  }

  /** The loop of `getTrackedTrades` over one user's trades. */
  method TradesOf(user: map<string, Entry>) returns (trades: seq<Entry>)
    requires forall k :: k in user ==> k == TradeKey(user[k].controllerEAId, user[k].controllerTicket)
    ensures |trades| == |user|
    ensures forall e :: e in trades <==> e in user.Values
    ensures forall i, j :: 0 <= i < j < |trades| ==> trades[i] != trades[j]
  {
    trades := [];
    ghost var done: seq<string> := [];
    var todo := user.Keys;
    while todo != {}
      invariant todo <= user.Keys
      invariant |done| == |trades| && |trades| + |todo| == |user|
      invariant forall i :: 0 <= i < |done| ==> done[i] in user && done[i] !in todo && trades[i] == user[done[i]]
      invariant forall k :: k in user && k !in todo ==> k in done
      invariant forall i, j :: 0 <= i < j < |done| ==> done[i] != done[j]
      decreases todo
    {
      var k :| k in todo;
      trades := trades + [user[k]];
      done := done + [k];
      todo := todo - {k};
    }
    TradesListed(user, done, trades);
  }

  /** The entries listed for every key of a user's trades, one key at a time: each trade once. */
  lemma TradesListed(user: map<string, Entry>, done: seq<string>, trades: seq<Entry>)
    requires forall k :: k in user ==> k == TradeKey(user[k].controllerEAId, user[k].controllerTicket)
    requires |done| == |trades| && forall i :: 0 <= i < |done| ==> done[i] in user && trades[i] == user[done[i]]
    requires forall k :: k in user ==> k in done
    requires forall i, j :: 0 <= i < j < |done| ==> done[i] != done[j]
    ensures forall e :: e in trades <==> e in user.Values
    ensures forall i, j :: 0 <= i < j < |trades| ==> trades[i] != trades[j]
  {
    forall e | e in user.Values
      ensures e in trades
    {
      var k :| k in user && user[k] == e;
      var i :| 0 <= i < |done| && done[i] == k;
      assert trades[i] == e;
    }
  }

  /** The module-level `tradeCopyTracking` map. */
  class CopyTracker {
    var tracking: Tracking

    ghost predicate Valid()
      reads this
    {
      TrackingInvariant(tracking)
    }

    constructor ()
      ensures Valid() && tracking == map[]
    {
      tracking := map[];
    }

    /** `getTrackingEntry`. */
    method GetTrackingEntry(userId: string, controllerEAId: string, ticket: nat, now: int) returns (e: Entry)
      requires Valid()
      modifies this
      ensures Valid() && tracking == EnsureEntry(old(tracking), userId, controllerEAId, ticket, now)
      ensures userId in tracking && TradeKey(controllerEAId, ticket) in tracking[userId]
      ensures e == tracking[userId][TradeKey(controllerEAId, ticket)]
    {
      GetOrCreate(tracking, userId, controllerEAId, ticket, now, now);
      if userId !in tracking {
        tracking := tracking[userId := map[]];
      }
      var key := TradeKey(controllerEAId, ticket);
      if key !in tracking[userId] {
        tracking := tracking[userId := tracking[userId][key := FreshEntry(controllerEAId, ticket, now)]];
      }
      e := tracking[userId][key];
    }

    /** `updateCopyStatus`. */
    method UpdateCopyStatus(userId: string, controllerEAId: string, ticket: nat, propEAId: string, status: Status,
                            propTicket: nat, error: string, requestId: Option<RequestId>, now: int) returns (e: Entry)
      requires Valid()
      modifies this
      ensures Valid()
      ensures tracking == UpdateCopy(old(tracking), userId, controllerEAId, ticket, propEAId, status, propTicket, error, requestId, now)
      ensures e == tracking[userId][TradeKey(controllerEAId, ticket)]
    {
      UpdateCopyInvariant(tracking, userId, controllerEAId, ticket, propEAId, status, propTicket, error, requestId, now);
      var entry := GetTrackingEntry(userId, controllerEAId, ticket, now);
      var key := TradeKey(controllerEAId, ticket);
      var ids: seq<RequestId> := if propEAId in entry.copies then entry.copies[propEAId].requestIds else [];
      if requestId.Some? && requestId.value !in ids {
        ids := ids + [requestId.value];
      }
      var copies := entry.copies[propEAId := CopyRecord(status, propTicket, error, now, ids)];
      var success, failed, pending := RecountCounters(copies);
      e := entry.(copies := copies, updatedAt := now, successCount := success, failedCount := failed,
                  pendingCount := pending, totalPropEAs := |copies|);
      tracking := tracking[userId := tracking[userId][key := e]];
    }

    /** A copy callback invoked with its outcome (an answer, a timeout, or an unconnected prop). */
    method OnCompletion(c: Completion, now: int)
      requires Valid()
      modifies this
      ensures Valid() && tracking == OnCopyOutcome(old(tracking), c.callback, c.outcome, now)
    {
      match c.callback
      case TrackCopy(u, ctrl, t, p, rid) =>
        if c.outcome.success {
          var _ := UpdateCopyStatus(u, ctrl, t, p, Success, c.outcome.ticket, "", Some(rid), now);
        } else {
          var _ := UpdateCopyStatus(u, ctrl, t, p, Failed, 0, c.outcome.error, Some(rid), now);
        }
      case LogAction(_, _) =>
    }

    /** `isAlreadyCopied`, asking the correlator whether a request of a pending copy still waits. */
    method CheckAlreadyCopied(rm: RequestManager, userId: string, controllerEAId: string, ticket: nat,
                              propEAId: string) returns (skip: bool)
      ensures skip == IsAlreadyCopied(tracking, rm.pending, userId, controllerEAId, ticket, propEAId)
    {
      if userId !in tracking {
        return false;
      }
      var key := TradeKey(controllerEAId, ticket);
      if key !in tracking[userId] {
        return false;
      }
      var entry := tracking[userId][key];
      if propEAId !in entry.copies {
        return false;
      }
      var copy := entry.copies[propEAId];
      if copy.status == Success {
        return true;
      }
      if copy.status == Pending {
        skip := rm.HasAnyPendingRequest(copy.requestIds);
        return;
      }
      return false;
    }

    /** The shared body of `copyPositionToPropEAs` and `copyOrderToPropEAs`: label the entry, then
        for each prop not already copied draw an id, mark the copy pending and send. */
    method CopyToPropEAs(job: CopyJob, props: seq<Found>, rm: RequestManager, now: int) returns (sent: seq<Sent>)
      requires Valid() && rm.Valid()
      modifies this, rm
      ensures Valid() && rm.Valid()
      ensures Run(World(tracking, rm.pending, rm.nextId), sent) ==
                CopyTrade(World(old(tracking), old(rm.pending), old(rm.nextId)), job, props, now)
    {
      ghost var w0 := World(tracking, rm.pending, rm.nextId);
      var e := GetTrackingEntry(job.userId, job.controllerEAId, job.ticket, now);
      var key := TradeKey(job.controllerEAId, job.ticket);
      RelabelKeeps(tracking, job.userId, key, job.symbol, job.kind, job.volume);
      tracking := tracking[job.userId := tracking[job.userId][key := e.(symbol := job.symbol, kind := job.kind, volume := job.volume)]];
      ghost var start := World(tracking, rm.pending, rm.nextId);
      assert start == Annotate(w0, job, now);
      sent := [];
      var i := 0;
      while i < |props|
        invariant 0 <= i <= |props|
        invariant Valid() && rm.Valid()
        invariant Run(World(tracking, rm.pending, rm.nextId), sent) == CopyToProps(start, job, props[..i], now)
      {
        var s := ServeProp(job, props[i].ea, rm, now);
        sent := sent + s;
        assert props[..i + 1][..i] == props[..i];
        i := i + 1;
      }
      assert props[..|props|] == props;
    }

    /** One turn of the per-prop loop. */
    method ServeProp(job: CopyJob, prop: EA, rm: RequestManager, now: int) returns (sent: seq<Sent>)
      requires Valid() && rm.Valid()
      modifies this, rm
      ensures Valid() && rm.Valid()
      ensures Run(World(tracking, rm.pending, rm.nextId), sent) ==
                CopyToProp(World(old(tracking), old(rm.pending), old(rm.nextId)), job, prop, now)
    {
      var skip := CheckAlreadyCopied(rm, job.userId, job.controllerEAId, job.ticket, prop.id);
      if skip {
        sent := [];
      } else {
        sent := SendCopy(job, prop, rm, now);
      }
    }

    /** A prop not already copied: a fresh id, the copy marked pending under it, and the send. */
    method SendCopy(job: CopyJob, prop: EA, rm: RequestManager, now: int) returns (sent: seq<Sent>)
      requires Valid() && rm.Valid()
      requires !AlreadyCopied(World(tracking, rm.pending, rm.nextId), job, prop.id)
      modifies this, rm
      ensures Valid() && rm.Valid()
      ensures Run(World(tracking, rm.pending, rm.nextId), sent) ==
                CopyToProp(World(old(tracking), old(rm.pending), old(rm.nextId)), job, prop, now)
    {
      ghost var w := World(tracking, rm.pending, rm.nextId);
      var rid := rm.GenerateRequestId();
      var request := JobRequest(job, rid, now);
      var callback := CopyCallback(job, prop.id, rid);
      var _ := UpdateCopyStatus(job.userId, job.controllerEAId, job.ticket, prop.id, Pending, 0, "", Some(rid), now);
      ghost var marked := tracking;
      var ok, completion, timeoutMs := rm.SendTradeRequest(Some(prop), request, callback, 0, now);
      sent := [];
      if completion.Some? {
        OnCompletion(completion.value, now);
      }
      if ok {
        sent := [Sent(prop.socket.value, request, timeoutMs)];
      }
      SentCopy(w, job, prop, now, marked, World(tracking, rm.pending, rm.nextId), sent);
    }

    /** `copyPositionToPropEAs`. */
    method CopyPositionToPropEAs(ctrl: EA, position: Position, props: seq<Found>, rm: RequestManager, now: int)
      returns (sent: seq<Sent>)
      requires Valid() && rm.Valid()
      modifies this, rm
      ensures Valid() && rm.Valid()
      ensures Run(World(tracking, rm.pending, rm.nextId), sent) ==
                CopyTrade(World(old(tracking), old(rm.pending), old(rm.nextId)), PositionJob(ctrl, position), props, now)
    {
      sent := CopyToPropEAs(PositionJob(ctrl, position), props, rm, now);
    }

    /** `copyOrderToPropEAs`. */
    method CopyOrderToPropEAs(ctrl: EA, order: Order, props: seq<Found>, rm: RequestManager, now: int)
      returns (sent: seq<Sent>)
      requires Valid() && rm.Valid()
      modifies this, rm
      ensures Valid() && rm.Valid()
      ensures Run(World(tracking, rm.pending, rm.nextId), sent) ==
                CopyTrade(World(old(tracking), old(rm.pending), old(rm.nextId)), OrderJob(ctrl, order), props, now)
    {
      sent := CopyToPropEAs(OrderJob(ctrl, order), props, rm, now);
    }
  
    /** `processTradeCopying`: the user's prop EAs, connected or not; nothing without any; else
        every position and then every order copied to them. */
    method ProcessTradeCopying(ctrl: EA, positions: seq<Position>, orders: seq<Order>, table: EATable,
                               rm: RequestManager, now: int) returns (sent: seq<Sent>)
      requires Valid() && rm.Valid()
      modifies this, rm
      ensures Valid() && rm.Valid()
      ensures var props := UserProps(GetEAsByType(table, "prop"), ctrl.userId, false);
        var w0 := World(old(tracking), old(rm.pending), old(rm.nextId));
        Run(World(tracking, rm.pending, rm.nextId), sent) ==
          if |props| == 0 then Run(w0, []) else CopyJobs(w0, Jobs(ctrl, positions, orders), props, now)
    {
      var props := UserProps(GetEAsByType(table, "prop"), ctrl.userId, false);
      if |props| == 0 {
        return [];
      }
      sent := CopySnapshot(ctrl, positions, orders, props, rm, now);
    }

    /** The two loops shared by `processTradeCopying` and the copy service's poll: every position,
        then every order, copied to the given props. */
    method CopySnapshot(ctrl: EA, positions: seq<Position>, orders: seq<Order>, props: seq<Found>,
                        rm: RequestManager, now: int) returns (sent: seq<Sent>)
      requires Valid() && rm.Valid()
      modifies this, rm
      ensures Valid() && rm.Valid()
      ensures Run(World(tracking, rm.pending, rm.nextId), sent) ==
                CopyJobs(World(old(tracking), old(rm.pending), old(rm.nextId)), Jobs(ctrl, positions, orders), props, now)
    {
      ghost var w0 := World(tracking, rm.pending, rm.nextId);
      sent := [];
      var i := 0;
      while i < |positions|
        invariant 0 <= i <= |positions|
        invariant Valid() && rm.Valid()
        invariant Run(World(tracking, rm.pending, rm.nextId), sent) == CopyJobs(w0, PositionJobs(ctrl, positions[..i]), props, now)
      {
        ghost var jobs := PositionJobs(ctrl, positions[..i]);
        TakeSnoc(positions, i);
        JobsAddPosition(ctrl, positions[..i], positions[i]);
        CopyJobsSnoc(w0, jobs, PositionJob(ctrl, positions[i]), props, now);
        var s := CopyPositionToPropEAs(ctrl, positions[i], props, rm, now);
        sent := sent + s;
        i := i + 1;
      }
      assert positions[..i] == positions;
      ghost var head := PositionJobs(ctrl, positions);
      assert head + OrderJobs(ctrl, orders[..0]) == head;
      var k := 0;
      while k < |orders|
        invariant 0 <= k <= |orders|
        invariant Valid() && rm.Valid()
        invariant Run(World(tracking, rm.pending, rm.nextId), sent) == CopyJobs(w0, head + OrderJobs(ctrl, orders[..k]), props, now)
      {
        ghost var jobs := OrderJobs(ctrl, orders[..k]);
        TakeSnoc(orders, k);
        JobsAddOrder(ctrl, orders[..k], orders[k]);
        AppendAssoc(head, jobs, OrderJob(ctrl, orders[k]));
        CopyJobsSnoc(w0, head + jobs, OrderJob(ctrl, orders[k]), props, now);
        var s := CopyOrderToPropEAs(ctrl, orders[k], props, rm, now);
        sent := sent + s;
        k := k + 1;
      }
      assert orders[..k] == orders;
    }

    /** `getTrackingStats`: the user's trade count and how many are all-success, all-failed or
        partial; zeros for an unknown user. */
    method GetTrackingStats(userId: string) returns (stats: Stats)
      ensures var trades := UserTracking(tracking, userId);
        stats == Stats(|trades|, |ClassSet(trades, SuccessOnly)|, |ClassSet(trades, FailedOnly)|,
                       |ClassSet(trades, PartialCopy)|)
    {
      if userId !in tracking {
        return Stats(0, 0, 0, 0);
      }
      var trades := tracking[userId];
      var allSuccess, allFailed, partial := CountClasses(trades);
      stats := Stats(|trades|, allSuccess, allFailed, partial);
    }

    /** `getTrackedTrades`: every tracked trade of the user, each once; none for an unknown user. */
    method GetTrackedTrades(userId: string) returns (trades: seq<Entry>)
      requires Valid()
      ensures |trades| == |UserTracking(tracking, userId)|
      ensures forall e :: e in trades <==> e in UserTracking(tracking, userId).Values
      ensures forall i, j :: 0 <= i < j < |trades| ==> trades[i] != trades[j]
    {
      if userId !in tracking {
        return [];
      }
      trades := TradesOf(tracking[userId]);
    }

    /** `getAllTradeHistory`: one row per copy of the listed users, newest first. */
    method GetAllTradeHistory(userId: string) returns (rows: seq<HistoryRow>)
      requires Valid()
      ensures SortedDesc(rows) && DistinctRows(rows)
      ensures forall r :: r in rows <==> IsHistoryRow(tracking, userId, r)
    {
      var users: set<string> := if userId != "" then {userId} else tracking.Keys;
      var history: seq<HistoryRow> := [];
      var todo := users;
      while todo != {}
        invariant todo <= users
        invariant DistinctRows(history)
        invariant forall r :: r in history <==>
                    exists u, k, p :: u in users && u !in todo && Listed(tracking, userId, u) && k in tracking[u] &&
                                      p in tracking[u][k].copies && r == RowOf(u, tracking[u][k], p)
        decreases todo
      {
        var u :| u in todo;
        if u in tracking {
          var more := RowsOfUser(u, tracking[u]);
          forall r | r in history
            ensures r !in more
          {
            assert r.userId != u;
          }
          DistinctAppend(history, more);
          history := history + more;
        }
        todo := todo - {u};
      }
      rows := SortByTimestamp(history);
    }
  }
}
