/**
 * The broker process: the gate every framed TCP message passes (authentication, then the rate
 * limit for the types that are not exempt, then dispatch to one handler), the socket events,
 * the offline watchdog, the force-delete endpoint and the admin-login lockout.
 * Configuration takes its built-in defaults; the environment overrides are not modelled.
 */
module Server {
  import opened Wrappers
  import opened EAManager
  import opened TradeRequests
  import opened TradeCopy
  import opened Security
  import opened Handlers

  /** Messages per rate window an EA may send in the non-exempt types (the `maxHz` default). */
  const RATE_MAX_HZ_PER_EA: int := 2
  const RATE_WINDOW_MS: int := 1000
  /** Seconds without a message after which the watchdog marks an EA offline. */
  const OFFLINE_SEC: int := 15
  const MAX_LOGIN_ATTEMPTS: nat := 5
  const LOGIN_BLOCK_TIME: int := 300000

  // ---------------------------------------------------------------- routing

  /** The handler a message type goes to. */
  datatype Route = ToHello | ToStatus | ToError | ToDeinit | ToTick | ToAccountInfo | ToTradesLive
                 | ToTradesHistory | ToTradeResponse | ToBrokerTime | ToTradeAction | ToBulk | Unrouted

  /** The message type a route serves. */
  function TypeName(r: Route): string {
    match r
    case ToHello => "hello"
    case ToStatus => "status"
    case ToError => "error"
    case ToDeinit => "deinit"
    case ToTick => "tick"
    case ToAccountInfo => "account_info"
    case ToTradesLive => "trades_live"
    case ToTradesHistory => "trades_history"
    case ToTradeResponse => "trade_response"
    case ToBrokerTime => "broker_time"
    case ToTradeAction => "trade_action"
    case ToBulk => "trade_actions_bulk"
    case Unrouted => ""
  }

  const KNOWN_TYPES: set<string> := {"hello", "status", "error", "deinit", "tick", "account_info", "trades_live",
                                     "trades_history", "trade_response", "broker_time", "trade_action",
                                     "trade_actions_bulk"}

  /** The router: the first type test that matches; an unknown type reaches no handler. */
  function RouteOf(kind: string): (r: Route)
    ensures r == Unrouted <==> kind !in KNOWN_TYPES
    ensures r != Unrouted ==> TypeName(r) == kind
  {
    if kind == "hello" then ToHello
    else if kind == "status" then ToStatus
    else if kind == "error" then ToError
    else if kind == "deinit" then ToDeinit
    else if kind == "tick" then ToTick
    else if kind == "account_info" then ToAccountInfo
    else if kind == "trades_live" then ToTradesLive
    else if kind == "trades_history" then ToTradesHistory
    else if kind == "trade_response" then ToTradeResponse
    else if kind == "broker_time" then ToBrokerTime
    else if kind == "trade_action" then ToTradeAction
    else if kind == "trade_actions_bulk" then ToBulk
    else Unrouted
  }

  /** Each handler serves one type: routing the name of a route gives that route back. */
  lemma RouteNameRoundTrip(r: Route)
    requires r != Unrouted
    ensures RouteOf(TypeName(r)) == r
  {
  }

  /** The types the rate limiter never sees. */
  const EXEMPT: seq<string> := ["hello", "deinit", "account_info", "trades_live", "trades_history",
                                "trade_response", "trade_action", "trade_actions_bulk", "status", "tick"]

  /** A message is rate limited when it carries an id and its type is not exempt. */
  predicate RateLimited(kind: string, id: string) {
    id != "" && kind !in EXEMPT
  }

  /** Of the types that reach a handler, only `error` and `broker_time` are ever rate limited. */
  lemma OnlyErrorAndBrokerTimeLimited(kind: string, id: string)
    requires RateLimited(kind, id) && RouteOf(kind) != Unrouted
    ensures RouteOf(kind) == ToError || RouteOf(kind) == ToBrokerTime
  {
    assert forall i :: 0 <= i < |EXEMPT| ==> EXEMPT[i] != kind;
    assert EXEMPT[0] == "hello" && EXEMPT[1] == "deinit" && EXEMPT[2] == "account_info" && EXEMPT[3] == "trades_live";
    assert EXEMPT[4] == "trades_history" && EXEMPT[5] == "trade_response" && EXEMPT[6] == "trade_action";
    assert EXEMPT[7] == "trade_actions_bulk" && EXEMPT[8] == "status" && EXEMPT[9] == "tick";
  }

  /** The limiter would refuse: the id's history, once stale timestamps are dropped, is full. */
  predicate Throttled(histories: map<string, seq<int>>, id: string, now: int) {
    |DropStale(if id in histories then histories[id] else [], now - RATE_WINDOW_MS)| >= RATE_MAX_HZ_PER_EA
  }

  /** One inbound message: its type, its authentication fields, and the fields each handler reads
      from it. */
  datatype Message = Message(kind: string, auth: AuthFields, hello: HelloMsg, status: StatusMsg, error: ErrorMsg,
                             deinit: DeinitMsg, tick: TickMsg, accountInfo: AccountInfoMsg,
                             tradesLive: TradesLiveMsg, tradesHistory: TradesHistoryMsg, response: Response,
                             brokerTime: string, action: TradeActionMsg)

  /** What the outside world answers during a `hello`, and the local time text of an error report. */
  datatype Env = Env(lookup: AccountLookup, alive: Sock -> bool, saved: Result<string>, time: string)

  /** How the gate disposed of a message. `HandlerMissing` is a bulk message, whose handler the
      handlers module does not define: the call throws and nothing is handled. */
  datatype GateOutcome = Destroyed(reason: AuthFailure) | RateDropped | Dispatched(route: Route) | Ignored | HandlerMissing

  // ---------------------------------------------------------------- the watchdog

  /** Seen at some time, and not for more than OFFLINE_SEC seconds. */
  predicate Stale(ea: EA, now: int) {
    ea.lastSeen != 0 && now - ea.lastSeen > OFFLINE_SEC * 1000
  }

  function MarkOffline(ea: EA, now: int): EA {
    if Stale(ea, now) && ea.state != "offline" then ea.(state := "offline") else ea
  }

  /** One watchdog pass over the registry. */
  function Watch(t: EATable, now: int): (r: EATable)
    ensures r.keys == t.keys && r.entries.Keys == t.entries.Keys
    ensures forall k :: k in t.entries ==> r.entries[k] == MarkOffline(t.entries[k], now)
  {
    EATable(t.keys, map k | k in t.entries :: MarkOffline(t.entries[k], now))
  }

  /** A watchdog pass changes only the state of stale entries, to 'offline'. */
  lemma WatchMarksOnlyStale(t: EATable, now: int, k: string)
    requires k in t.entries
    ensures var before, after := t.entries[k], Watch(t, now).entries[k];
      after == before.(state := after.state) &&
      (after.state != before.state <==> Stale(before, now) && before.state != "offline") &&
      (Stale(before, now) ==> after.state == "offline")
  {
  }

  /** The registry part-way through a watchdog pass that has visited the keys in `done`. */
  function WatchedUpTo(t: EATable, done: seq<string>, now: int): EATable {
    EATable(t.keys, map k | k in t.entries :: if k in done then MarkOffline(t.entries[k], now) else t.entries[k])
  }

  /** Visiting one more key writes its marked entry; when marking leaves the entry as it was,
      the visit changes nothing. */
  lemma WatchStep(t: EATable, done: seq<string>, key: string, now: int)
    requires ValidTable(t) && key in t.entries && key !in done
    ensures ValidTable(WatchedUpTo(t, done, now))
    ensures WatchedUpTo(t, done, now).entries[key] == t.entries[key]
    ensures Put(WatchedUpTo(t, done, now), key, MarkOffline(t.entries[key], now)) == WatchedUpTo(t, done + [key], now)
    ensures MarkOffline(t.entries[key], now) == t.entries[key] ==>
              WatchedUpTo(t, done + [key], now) == WatchedUpTo(t, done, now)
  {
    var before, after := WatchedUpTo(t, done, now), WatchedUpTo(t, done + [key], now);
    assert before.entries[key := MarkOffline(t.entries[key], now)] == after.entries;
  }

  /** The keys broadcast so far: exactly the visited keys whose entries were stale and not offline. */
  ghost predicate MarkedAmong(t: EATable, done: seq<string>, now: int, marked: seq<string>) {
    forall k :: k in marked <==>
      k in done && k in t.entries && Stale(t.entries[k], now) && t.entries[k].state != "offline"
  }

  /** The keys the watchdog has broadcast after visiting one more key. */
  lemma MarkedStep(t: EATable, done: seq<string>, key: string, now: int, marked: seq<string>, marked2: seq<string>)
    requires key in t.entries && MarkedAmong(t, done, now, marked)
    requires marked2 == if Stale(t.entries[key], now) && t.entries[key].state != "offline" then marked + [key] else marked
    ensures MarkedAmong(t, done + [key], now, marked2)
  {
  }

  /** The end of the watchdog pass: every key was visited. */
  lemma WatchDone(t0: EATable, keys: seq<string>, i: int, table: EATable, marked: seq<string>, now: int)
    requires ValidTable(t0) && keys == t0.keys && i == |keys|
    requires table == WatchedUpTo(t0, keys[..i], now) && MarkedAmong(t0, keys[..i], now, marked)
    ensures ValidTable(table) && table == Watch(t0, now)
    ensures forall k :: k in marked <==> k in t0.entries && Stale(t0.entries[k], now) && t0.entries[k].state != "offline"
  {
    assert keys[..i] == keys;
    WatchedAll(t0, now);
    MarkedAll(t0, now, marked);
  }

  /** Once every key is visited, the broadcast keys are the stale entries not yet offline. */
  lemma MarkedAll(t: EATable, now: int, marked: seq<string>)
    requires ValidTable(t) && MarkedAmong(t, t.keys, now, marked)
    ensures forall k :: k in marked <==> k in t.entries && Stale(t.entries[k], now) && t.entries[k].state != "offline"
  {
  }

  /** Once every key is visited, the pass is complete. */
  lemma WatchedAll(t: EATable, now: int)
    requires ValidTable(t)
    ensures WatchedUpTo(t, t.keys, now) == Watch(t, now)
  {
    assert WatchedUpTo(t, t.keys, now).entries == Watch(t, now).entries;
  }

  /** A later pass repeats nothing: running the watchdog at `now1` and then at `now2 >= now1`
      is running it once at `now2`; in particular, running it twice equals running it once. */
  lemma WatchTwice(t: EATable, now1: int, now2: int)
    requires now1 <= now2
    ensures Watch(Watch(t, now1), now2) == Watch(t, now2)
  {
    var once := Watch(t, now1);
    assert forall k :: k in t.entries ==> MarkOffline(MarkOffline(t.entries[k], now1), now2) == MarkOffline(t.entries[k], now2);
    assert Watch(once, now2).entries == Watch(t, now2).entries;
  }

  // ---------------------------------------------------------------- the admin-login lockout

  /** The failure record of one client address. */
  datatype Attempt = Attempt(attempts: nat, lastAttempt: int, blockedUntil: int)

  /** The record a new address starts from. */
  const NO_ATTEMPT: Attempt := Attempt(0, 0, 0)

  datatype LoginResult = LoginBlocked(remainingSec: int) | LoginOk | LoginInvalid

  /** What happens to the address's record: kept as it is, deleted, or replaced. */
  datatype RecordChange = Keep | Delete | Store(record: Attempt)

  datatype LoginStep = LoginStep(result: LoginResult, change: RecordChange)

  /** `Math.ceil(d / 1000)` for a positive number of milliseconds. */
  function CeilSeconds(d: int): (s: int)
    requires d > 0
    ensures s >= 1 && (s - 1) * 1000 < d <= s * 1000
  {
    (d + 999) / 1000
  }

  /** One login attempt from an address with record `a`: a blocked address is refused whatever
      the credentials; the count restarts after LOGIN_BLOCK_TIME of quiet; a success deletes the
      record; a failure counts, and blocks the address when the count reaches the maximum. */
  function LoginAttempt(a: Attempt, credentialsOk: bool, now: int): (r: LoginStep)
    ensures r.result.LoginBlocked? <==> a.blockedUntil > now
    ensures r.result.LoginBlocked? ==> r.change == Keep && r.result.remainingSec >= 1
    ensures r.result == LoginOk <==> a.blockedUntil <= now && credentialsOk
    ensures r.result == LoginOk ==> r.change == Delete
    ensures r.result == LoginInvalid ==> r.change.Store? && r.change.record.lastAttempt == now
  {
    if a.blockedUntil > now then LoginStep(LoginBlocked(CeilSeconds(a.blockedUntil - now)), Keep)
    else
      var count := if now - a.lastAttempt > LOGIN_BLOCK_TIME then 0 else a.attempts;
      if credentialsOk then LoginStep(LoginOk, Delete)
      else
        var n := count + 1;
        LoginStep(LoginInvalid, Store(Attempt(n, now, if n >= MAX_LOGIN_ATTEMPTS then now + LOGIN_BLOCK_TIME else a.blockedUntil)))
  }

  /** The record after failed attempts at the given times, each applied as `LoginAttempt` does. */
  function AfterFailures(a: Attempt, times: seq<int>): Attempt
    decreases |times|
  {
    if |times| == 0 then a
    else
      var before := AfterFailures(a, times[..|times| - 1]);
      match LoginAttempt(before, false, times[|times| - 1]).change
      case Store(next) => next
      case _ => before
  }

  /** The failures come in order, each within LOGIN_BLOCK_TIME of the one before. */
  predicate Burst(times: seq<int>) {
    forall i :: 0 < i < |times| ==> times[i - 1] <= times[i] <= times[i - 1] + LOGIN_BLOCK_TIME
  }

  /** Failures in a burst from a clean record count one each and do not block before the last. */
  lemma {:induction false} BurstCounts(times: seq<int>)
    requires 0 < |times| <= MAX_LOGIN_ATTEMPTS && Burst(times) && times[0] >= 0
    ensures var a := AfterFailures(NO_ATTEMPT, times);
      a.attempts == |times| && a.lastAttempt == times[|times| - 1] && a.lastAttempt >= 0 &&
      a.blockedUntil == (if |times| == MAX_LOGIN_ATTEMPTS then times[|times| - 1] + LOGIN_BLOCK_TIME else 0)
    decreases |times|
  {
    var n := |times| - 1;
    if n > 0 {
      var prefix := times[..n];
      assert Burst(prefix) by {
        forall i | 0 < i < |prefix|
          ensures prefix[i - 1] <= prefix[i] <= prefix[i - 1] + LOGIN_BLOCK_TIME
        {
          assert prefix[i - 1] == times[i - 1] && prefix[i] == times[i];
        }
      }
      BurstCounts(prefix);
      var before := AfterFailures(NO_ATTEMPT, prefix);
      assert prefix[n - 1] == times[n - 1];
      assert times[n - 1] <= times[n] <= times[n - 1] + LOGIN_BLOCK_TIME;
      assert before.blockedUntil == 0 && before.attempts == n && before.lastAttempt == times[n - 1];
    } else {
      assert times[..0] == [];
    }
  }

  /** Lockout: MAX_LOGIN_ATTEMPTS failures in a burst block the address for LOGIN_BLOCK_TIME
      after the last one, and during the block even correct credentials are refused. */
  lemma Lockout(times: seq<int>, now: int, credentialsOk: bool)
    requires |times| == MAX_LOGIN_ATTEMPTS && Burst(times) && times[0] >= 0
    requires times[|times| - 1] <= now < times[|times| - 1] + LOGIN_BLOCK_TIME
    ensures LoginAttempt(AfterFailures(NO_ATTEMPT, times), credentialsOk, now).result.LoginBlocked?
  {
    BurstCounts(times);
  }

  /** After LOGIN_BLOCK_TIME of quiet the count starts again: a failure then counts as the first. */
  lemma QuietResets(a: Attempt, now: int)
    requires a.blockedUntil <= now && now - a.lastAttempt > LOGIN_BLOCK_TIME
    ensures LoginAttempt(a, false, now).change == Store(Attempt(1, now, a.blockedUntil))
  {
  }

  // ---------------------------------------------------------------- the broker

  /** The routes served by the registry alone: `hello` and `deinit` may add or remove a key;
      every other one only refreshes the entry bound to the socket, and changes nothing when no
      entry is bound to it. */
  predicate RegistryRoute(route: Route) {
    route != ToTradeResponse && route != ToTradeAction && route != ToBulk && route != Unrouted
  }

  method RouteToRegistry(registry: Registry, route: Route, msg: Message, sock: Sock, now: int, env: Env)
    requires registry.Valid() && RegistryRoute(route)
    modifies registry
    ensures registry.Valid()
    ensures route == ToHello ==>
              registry.table == Hello(old(registry.table), msg.hello, sock, now, env.lookup, env.alive, env.saved).table
    ensures route != ToHello && route != ToDeinit ==> registry.table.keys == old(registry.table.keys)
    ensures route != ToHello && route != ToDeinit && FindEABySocket(old(registry.table), sock).None? ==>
              registry.table == old(registry.table)
  {
    match route {
      case ToHello =>
        var _ := HandleHello(registry, msg.hello, sock, now, env.lookup, env.alive, env.saved);
      case ToDeinit =>
        var _ := HandleDeinit(registry, msg.deinit, sock);
      case ToStatus => HandleStatus(registry, msg.status, sock, now);
      case ToError => HandleError(registry, msg.error, sock, env.time);
      case ToTick => HandleTick(registry, msg.tick, sock, now);
      case ToAccountInfo => HandleAccountInfo(registry, msg.accountInfo, sock, now);
      case ToTradesLive => HandleTradesLive(registry, msg.tradesLive, sock, now);
      case ToTradesHistory => HandleTradesHistory(registry, msg.tradesHistory, sock, now);
      case ToBrokerTime => HandleBrokerTime(registry, msg.brokerTime, sock, now);
    }
  }

  /** One visit of the watchdog loop: the entry under `key` is marked offline when it is stale,
      and the answer says whether it was. */
  method WatchKey(registry: Registry, ghost t0: EATable, ghost done: seq<string>, key: string, now: int)
    returns (wasMarked: bool)
    requires ValidTable(t0) && key in t0.entries && key !in done
    requires registry.table == WatchedUpTo(t0, done, now)
    modifies registry
    ensures registry.table == WatchedUpTo(t0, done + [key], now)
    ensures wasMarked <==> Stale(t0.entries[key], now) && t0.entries[key].state != "offline"
  {
    WatchStep(t0, done, key, now);
    var ea := registry.table.entries[key];
    if ea.lastSeen != 0 && now - ea.lastSeen > OFFLINE_SEC * 1000 && ea.state != "offline" {
      assert MarkOffline(ea, now) == ea.(state := "offline");
      registry.Set(key, ea.(state := "offline"));
      wasMarked := true;
    } else {
      assert MarkOffline(ea, now) == ea;
      wasMarked := false;
    }
  }

  /** The loop of the watchdog timer over the registry, in registry order. */
  method WatchRegistry(registry: Registry, now: int) returns (marked: seq<string>)
    requires registry.Valid()
    modifies registry
    ensures registry.Valid() && registry.table == Watch(old(registry.table), now)
    ensures forall k :: k in marked <==>
              k in old(registry.table).entries && Stale(old(registry.table).entries[k], now) &&
              old(registry.table).entries[k].state != "offline"
  {
    ghost var t0 := registry.table;
    var keys := registry.table.keys;
    marked := [];
    var i := 0;
    while i < |keys|
      invariant 0 <= i <= |keys|
      invariant registry.table == WatchedUpTo(t0, keys[..i], now)
      invariant MarkedAmong(t0, keys[..i], now, marked)
    {
      var key := keys[i];
      assert key !in keys[..i];
      ghost var done := keys[..i];
      assert keys[..i + 1] == done + [key];
      ghost var marked0 := marked;
      var wasMarked := WatchKey(registry, t0, done, key, now);
      if wasMarked {
        marked := marked + [key];
      }
      MarkedStep(t0, done, key, now, marked0, marked);
      i := i + 1;
    }
    WatchDone(t0, keys, i, registry.table, marked, now);
  }

  class Broker {
    const secret: string
    const hmac: (string, string) -> string
    const registry: Registry
    const rm: RequestManager
    const limiter: RateLimiter
    const tracker: CopyTracker
    var loginAttempts: map<string, Attempt>

    ghost predicate Valid()
      reads this, registry, rm, tracker
    {
      registry.Valid() && rm.Valid() && tracker.Valid()
    }

    constructor (secret: string, hmac: (string, string) -> string)
      ensures Valid() && this.secret == secret && this.hmac == hmac
      ensures registry.table == EmptyTable && rm.pending == map[] && limiter.rateLimits == map[]
      ensures tracker.tracking == map[] && loginAttempts == map[]
    {
      this.secret := secret;
      this.hmac := hmac;
      registry := new Registry();
      rm := new RequestManager();
      limiter := new RateLimiter();
      tracker := new CopyTracker();
      loginAttempts := map[];
    }

    /** The message callback of a TCP connection: a message that fails authentication destroys
        the socket and reaches no handler; a rate-limited message over the limit is dropped;
        otherwise the router calls the handler of its type. A trade response's callback is
        applied to the copy tracker. */
    method OnMessage(sock: Sock, msg: Message, now: int, env: Env) returns (outcome: GateOutcome, forwards: seq<Forward>)
      requires Valid()
      modifies registry, rm, limiter, tracker
      ensures Valid()
      ensures var check := VerifyMessage(msg.auth, secret, TIMESTAMP_WINDOW, now, hmac);
        (check.Rejected? ==> outcome == Destroyed(check.reason)) &&
        (check.Accepted? && RateLimited(msg.kind, msg.auth.id) && Throttled(old(limiter.rateLimits), msg.auth.id, now) ==>
           outcome == RateDropped) &&
        (check.Accepted? && !(RateLimited(msg.kind, msg.auth.id) && Throttled(old(limiter.rateLimits), msg.auth.id, now)) ==>
           outcome == (if RouteOf(msg.kind) == Unrouted then Ignored
                       else if RouteOf(msg.kind) == ToBulk then HandlerMissing
                       else Dispatched(RouteOf(msg.kind))))
      ensures outcome.Destroyed? || !RateLimited(msg.kind, msg.auth.id) ==> limiter.rateLimits == old(limiter.rateLimits)
      ensures !outcome.Dispatched? ==>
                registry.table == old(registry.table) && rm.pending == old(rm.pending) && rm.nextId == old(rm.nextId) &&
                tracker.tracking == old(tracker.tracking) && forwards == []
      ensures outcome.Dispatched? && outcome.route != ToHello && outcome.route != ToDeinit ==>
                registry.table.keys == old(registry.table.keys)
      ensures outcome != Dispatched(ToTradeResponse) && outcome != Dispatched(ToTradeAction) ==>
                rm.pending == old(rm.pending) && rm.nextId == old(rm.nextId)
      ensures outcome != Dispatched(ToTradeResponse) ==> tracker.tracking == old(tracker.tracking)
      ensures outcome == Dispatched(ToTradeResponse) ==>
                var s := Respond(old(rm.pending), msg.response);
                rm.pending == s.table &&
                tracker.tracking == (if s.completion.Some?
                                     then OnCopyOutcome(old(tracker.tracking), s.completion.value.callback, s.completion.value.outcome, now)
                                     else old(tracker.tracking))
      ensures outcome == Dispatched(ToTradeAction) ==>
                forwards == (if ActionAccepted(old(registry.table), msg.action, sock)
                             then ActionForwards(ActionProps(old(registry.table), msg.action), msg.action, old(rm.nextId), now)
                             else [])
    {
      forwards := [];
      var check := VerifyMessage(msg.auth, secret, TIMESTAMP_WINDOW, now, hmac);
      if check.Rejected? {
        return Destroyed(check.reason), [];
      }
      if msg.auth.id != "" && msg.kind !in EXEMPT {
        var ok := limiter.CheckRateLimit(msg.auth.id, RATE_MAX_HZ_PER_EA, RATE_WINDOW_MS, now);
        if !ok {
          return RateDropped, [];
        }
      }
      outcome, forwards := Dispatch(RouteOf(msg.kind), sock, msg, now, env);
    }

    /** The routing switch of the message handler, once a message passed the gate. */
    method Dispatch(route: Route, sock: Sock, msg: Message, now: int, env: Env) returns (outcome: GateOutcome, forwards: seq<Forward>)
      requires Valid()
      modifies registry, rm, tracker
      ensures Valid()
      ensures outcome == (if route == Unrouted then Ignored
                          else if route == ToBulk then HandlerMissing
                          else Dispatched(route))
      ensures !outcome.Dispatched? ==>
                registry.table == old(registry.table) && rm.pending == old(rm.pending) && rm.nextId == old(rm.nextId) &&
                tracker.tracking == old(tracker.tracking) && forwards == []
      ensures outcome.Dispatched? && outcome.route != ToHello && outcome.route != ToDeinit ==>
                registry.table.keys == old(registry.table.keys)
      ensures outcome != Dispatched(ToTradeResponse) && outcome != Dispatched(ToTradeAction) ==>
                rm.pending == old(rm.pending) && rm.nextId == old(rm.nextId)
      ensures outcome != Dispatched(ToTradeResponse) ==> tracker.tracking == old(tracker.tracking)
      ensures outcome == Dispatched(ToTradeResponse) ==>
                var s := Respond(old(rm.pending), msg.response);
                rm.pending == s.table &&
                tracker.tracking == (if s.completion.Some?
                                     then OnCopyOutcome(old(tracker.tracking), s.completion.value.callback, s.completion.value.outcome, now)
                                     else old(tracker.tracking))
      ensures outcome == Dispatched(ToTradeAction) ==>
                forwards == (if ActionAccepted(old(registry.table), msg.action, sock)
                             then ActionForwards(ActionProps(old(registry.table), msg.action), msg.action, old(rm.nextId), now)
                             else [])
    {
      forwards := [];
      outcome := Dispatched(route);
      if RegistryRoute(route) {
        RouteToRegistry(registry, route, msg, sock, now, env);
      } else if route == ToTradeResponse {
        var _ := OnTradeResponse(msg.response, now);
      } else if route == ToTradeAction {
        forwards := HandleTradeAction(registry, rm, msg.action, sock, now);
      } else if route == ToBulk {
        outcome := HandlerMissing;
      } else {
        outcome := Ignored;
      }
    }

    /** A `trade_response` arrives: the request it answers, if still waiting, leaves the table and
        its callback reaches the tracker; an unknown or repeated answer changes nothing. */
    method OnTradeResponse(resp: Response, now: int) returns (completion: Option<Completion>)
      requires Valid()
      modifies rm, tracker
      ensures Valid()
      ensures Step(rm.pending, completion) == Respond(old(rm.pending), resp) && rm.nextId == old(rm.nextId)
      ensures tracker.tracking == if completion.Some?
                                  then OnCopyOutcome(old(tracker.tracking), completion.value.callback, completion.value.outcome, now)
                                  else old(tracker.tracking)
    {
      completion := rm.HandleTradeResponse(resp);
      if completion.Some? {
        tracker.OnCompletion(completion.value, now);
      }
    }

    /** The timer of a request fires: its callback, if the request still waits, reaches the
        tracker; a request already answered is left alone. */
    method OnTimeout(id: RequestId, now: int) returns (completion: Option<Completion>)
      requires Valid()
      modifies rm, tracker
      ensures Valid()
      ensures Step(rm.pending, completion) == Timeout(old(rm.pending), id)
      ensures tracker.tracking == if completion.Some?
                                  then OnCopyOutcome(old(tracker.tracking), completion.value.callback, completion.value.outcome, now)
                                  else old(tracker.tracking)
    {
      completion := rm.FireTimeout(id);
      if completion.Some? {
        tracker.OnCompletion(completion.value, now);
      }
    }

    /** The socket's 'end' event: its entry, if any, is disconnected and offline. */
    method OnSocketEnd(sock: Sock)
      requires Valid()
      modifies registry
      ensures Valid()
      ensures var found := FindEABySocket(old(registry.table), sock);
        registry.table == if found.None? then old(registry.table)
          else AtSocket(old(registry.table), sock, found.value.ea.(connected := false, state := "offline"))
    {
      var found := FindEABySocket(registry.table, sock);
      if found.Some? {
        var cur := found.value.ea;
        registry.Set(found.value.key, cur.(connected := false, state := "offline"));
      }
    }

    /** The socket's 'error' event: a connection reset changes nothing; any other error leaves
        the entry, if any, disconnected in state 'error'. */
    method OnSocketError(sock: Sock, code: string)
      requires Valid()
      modifies registry
      ensures Valid()
      ensures var found := FindEABySocket(old(registry.table), sock);
        registry.table == if code == "ECONNRESET" || found.None? then old(registry.table)
          else AtSocket(old(registry.table), sock, found.value.ea.(connected := false, state := "error"))
    {
      if code != "ECONNRESET" {
        var found := FindEABySocket(registry.table, sock);
        if found.Some? {
          var cur := found.value.ea;
          registry.Set(found.value.key, cur.(connected := false, state := "error"));
        }
      }
    }

    /** The watchdog timer: every stale entry not yet offline becomes offline and is broadcast,
        in registry order; nothing else changes. */
    method RunWatchdog(now: int) returns (marked: seq<string>)
      requires Valid()
      modifies registry
      ensures Valid() && registry.table == Watch(old(registry.table), now)
      ensures forall k :: k in marked <==>
                k in old(registry.table).entries && Stale(old(registry.table).entries[k], now) &&
                old(registry.table).entries[k].state != "offline"
    {
      marked := WatchRegistry(registry, now);
    }

    /** The force-delete endpoint: with a user id, the controller key of that user and EA, else
        its prop key, whichever is registered first in that order; without one, the first entry
        with that EA id. At most one key goes. */
    method ForceDelete(id: string, userId: string) returns (ok: bool, deleted: bool, key: Option<string>)
      requires Valid()
      modifies registry
      ensures Valid()
      ensures ok <==> id != ""
      ensures !deleted ==> registry.table == old(registry.table) && key.None?
      ensures deleted ==> key.Some? && key.value in old(registry.table).entries &&
                          registry.table == Remove(old(registry.table), key.value)
      ensures id != "" && userId != "" ==>
                var ck, pk := MakeKey(userId, "controller", id).value, MakeKey(userId, "prop", id).value;
                (deleted <==> ck in old(registry.table).entries || pk in old(registry.table).entries) &&
                (deleted ==> key == Some(if ck in old(registry.table).entries then ck else pk))
      ensures id != "" && userId == "" ==>
                deleted == FindEAByEaId(old(registry.table), id).Some? &&
                (deleted ==> key == Some(FindEAByEaId(old(registry.table), id).value.key))
    {
      deleted, key := false, None;
      if id == "" {
        return false, false, None;
      }
      ok := true;
      if userId != "" {
        var roles := ["controller", "prop"];
        var i := 0;
        while i < |roles| && !deleted
          invariant 0 <= i <= |roles| && registry.Valid()
          invariant !deleted ==> registry.table == old(registry.table) && key.None? &&
                                 forall j :: 0 <= j < i ==> MakeKey(userId, roles[j], id).value !in old(registry.table).entries
          invariant deleted ==> 0 < i && key == Some(MakeKey(userId, roles[i - 1], id).value) &&
                                key.value in old(registry.table).entries &&
                                registry.table == Remove(old(registry.table), key.value) &&
                                forall j :: 0 <= j < i - 1 ==> MakeKey(userId, roles[j], id).value !in old(registry.table).entries
        {
          var k := MakeKey(userId, roles[i], id).value;
          if k in registry.table.entries {
            var _ := registry.DeleteEAByKey(k);
            deleted, key := true, Some(k);
          }
          i := i + 1;
        }
        assert roles[0] == "controller" && roles[1] == "prop";
      } else {
        var found := FindEAByEaId(registry.table, id);
        if found.Some? {
          var _ := registry.DeleteEAByKey(found.value.key);
          deleted, key := true, Some(found.value.key);
        }
      }
    }

    /** The admin login from a client address: decides with the lockout record of the address
        (a fresh one when there is none) and updates it as `LoginAttempt` says. */
    method AdminLogin(ip: string, credentialsOk: bool, now: int) returns (result: LoginResult)
      modifies this
      ensures var step := LoginAttempt(if ip in old(loginAttempts) then old(loginAttempts)[ip] else NO_ATTEMPT,
                                       credentialsOk, now);
        result == step.result &&
        loginAttempts == match step.change
                         case Keep => old(loginAttempts)
                         case Delete => old(loginAttempts) - {ip}
                         case Store(a) => old(loginAttempts)[ip := a]
    {
      var attempts := if ip in loginAttempts then loginAttempts[ip] else NO_ATTEMPT;
      if attempts.blockedUntil > now {
        return LoginBlocked(CeilSeconds(attempts.blockedUntil - now));
      }
      if now - attempts.lastAttempt > LOGIN_BLOCK_TIME {
        attempts := attempts.(attempts := 0);
      }
      if credentialsOk {
        loginAttempts := loginAttempts - {ip};
        return LoginOk;
      }
      attempts := attempts.(attempts := attempts.attempts + 1, lastAttempt := now);
      if attempts.attempts >= MAX_LOGIN_ATTEMPTS {
        attempts := attempts.(blockedUntil := now + LOGIN_BLOCK_TIME);
      }
      loginAttempts := loginAttempts[ip := attempts];
      result := LoginInvalid;
    }
  }
}
