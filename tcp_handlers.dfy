/**
 * The handlers of the messages an EA sends over its TCP connection. Each one finds the EA's
 * registry entry (by key for `hello`, by socket for the others) and updates it in place;
 * `trade_action` forwards a controller's close or modify to the props of the user.
 * Absent and falsy message fields are "" or 0, as the handlers treat them alike.
 */
module Handlers {
  import opened Wrappers
  import opened EAManager
  import opened TradeRequests
  import opened TradeCopy

  /** The largest number of error reports an entry keeps. */
  const MAX_ERRORS: nat := 50

  // ---------------------------------------------------------------- hello

  /** A `hello`: `userId` is `None` when the field is missing, which a stored "" differs from. */
  datatype HelloMsg = HelloMsg(id: string, role: string, userId: Option<string>, accountNumber: string)

  /** The account lookup, from the database or the in-memory accounts; `LookupFailed` is a lookup
      that throws. */
  datatype AccountLookup = Known(active: bool) | Unknown | LookupFailed

  /** How a `hello` ends: the key could not be made (the handler throws before any change), the EA
      is refused with a reason, the connection is dropped by the error path, the EA is validated,
      or it has no user. */
  datatype HelloReply = HelloIgnored | HelloRejected(reason: string) | HelloDropped | HelloAccepted | HelloAnonymous

  datatype HelloResult = HelloResult(table: EATable, reply: HelloReply)

  /** A truthy user id. */
  predicate HasUser(userId: Option<string>) {
    userId.Some? && userId.value != ""
  }

  /** `userId || fallback`. */
  function UserOr(userId: Option<string>, fallback: string): string {
    if HasUser(userId) then userId.value else fallback
  }

  /** The slot reservation that opens every `hello`: a new key gets a fresh entry; an existing one
      loses its validation when the user id differs, and is rebound to this socket and marked
      connected, all before any check. */
  function Reserve(t: EATable, key: string, msg: HelloMsg, sock: Sock, now: int): (r: EATable)
    requires ValidTable(t)
    ensures ValidTable(r) && key in r.entries && r.entries[key].socket == Some(sock)
    ensures forall k :: k != key ==> (k in r.entries <==> k in t.entries)
    ensures forall k :: k != key && k in t.entries ==> r.entries[k] == t.entries[k]
    ensures key in t.entries ==>
              r.keys == t.keys && r.entries[key].connected && r.entries[key].lastSeen == now &&
              r.entries[key].userValidated == (t.entries[key].userValidated && msg.userId == Some(t.entries[key].userId))
    ensures key !in t.entries ==>
              r.entries[key] == CreateEAData(UserOr(msg.userId, ""), msg.role, msg.id, sock, now, NoOverrides)
  {
    if key in t.entries then
      var e := t.entries[key];
      var e1 := if msg.userId != Some(e.userId) then e.(userValidated := false) else e;
      Put(t, key, e1.(socket := Some(sock), lastSeen := now, connected := true))
    else
      Put(t, key, CreateEAData(UserOr(msg.userId, ""), msg.role, msg.id, sock, now, NoOverrides))
  }

  /** `deleteEABySocket` on a table: the first entry bound to the socket goes. */
  function DropSocket(t: EATable, sock: Sock): (r: EATable)
    requires ValidTable(t)
    ensures ValidTable(r)
  {
    match FindEABySocket(t, sock)
    case None => t
    case Some(f) => Remove(t, f.key)
  }

  /** The checks of `handleHelloMessage` once the slot `key` is reserved, for a message that names
      a user: the account lookup, the duplicate and account-conflict tests on the reserved table,
      validation, then the settings lookup. */
  function HelloChecks(t1: EATable, key: string, msg: HelloMsg, sock: Sock, lookup: AccountLookup,
                       alive: Sock -> bool, saved: Result<string>): (r: HelloResult)
    requires ValidTable(t1) && key in t1.entries && HasUser(msg.userId)
    ensures ValidTable(r.table)
  {
    var userId := msg.userId.value;
    var dropped := DropSocket(t1, sock);
    match lookup
    case LookupFailed => HelloResult(dropped, HelloDropped)
    case Unknown => HelloResult(dropped, HelloRejected("invalid_userid"))
    case Known(active) =>
      if !active then HelloResult(dropped, HelloRejected("invalid_userid"))
      else if IsDuplicateEA(t1, userId, msg.role, msg.id, sock, alive) == Ok(true) then
        HelloResult(dropped, HelloRejected("duplicate_ea"))
      else if CheckAccountConflict(t1, userId, msg.accountNumber, msg.role, sock).Conflict? then
        HelloResult(dropped, HelloRejected("account_conflict"))
      else
        var t2 := Put(t1, key, t1.entries[key].(userValidated := true, state := "online",
                                                accountNumber := msg.accountNumber, connected := true));
        match saved
        case Err(_) => HelloResult(DropSocket(t2, sock), HelloDropped)
        case Ok(s) => HelloResult(if s != "" then Put(t2, key, t2.entries[key].(settings := s)) else t2, HelloAccepted)
  }

  /** `handleHelloMessage`, with the account lookup, the socket liveness test and the settings
      lookup (`Err` when it throws, `Ok("")` when nothing is saved) given as parameters. */
  function Hello(t: EATable, msg: HelloMsg, sock: Sock, now: int, lookup: AccountLookup,
                 alive: Sock -> bool, saved: Result<string>): (r: HelloResult)
    requires ValidTable(t)
    ensures ValidTable(r.table)
  {
    match MakeKey(UserOr(msg.userId, "NO_USER"), msg.role, msg.id)
    case Err(_) => HelloResult(t, HelloIgnored)
    case Ok(key) =>
      var t1 := Reserve(t, key, msg, sock, now);
      if !HasUser(msg.userId) then
        HelloResult(Put(t1, key, t1.entries[key].(socket := Some(sock), connected := true)), HelloAnonymous)
      else HelloChecks(t1, key, msg, sock, lookup, alive, saved)
  }

  /** The slot is rebound to the new socket before the duplicate check, so the check compares the
      socket with itself and `duplicate_ea` is never sent. */
  lemma HelloNeverDuplicate(t: EATable, msg: HelloMsg, sock: Sock, now: int, lookup: AccountLookup,
                            alive: Sock -> bool, saved: Result<string>)
    requires ValidTable(t)
    ensures Hello(t, msg, sock, now, lookup, alive, saved).reply != HelloRejected("duplicate_ea")
  {
    var k := MakeKey(UserOr(msg.userId, "NO_USER"), msg.role, msg.id);
    if k.Ok? && HasUser(msg.userId) {
      var t1 := Reserve(t, k.value, msg, sock, now);
      assert MakeKey(msg.userId.value, msg.role, msg.id) == k;
      assert IsDuplicateEA(t1, msg.userId.value, msg.role, msg.id, sock, alive) == Ok(false);
    }
  }

  /** A `hello` is accepted exactly when it names a user whose account exists and is active,
      no conflicting EA runs on its account, and the settings lookup does not fail. */
  lemma HelloAcceptedIff(t: EATable, msg: HelloMsg, sock: Sock, now: int, lookup: AccountLookup,
                         alive: Sock -> bool, saved: Result<string>)
    requires ValidTable(t) && MakeKey(UserOr(msg.userId, "NO_USER"), msg.role, msg.id).Ok?
    ensures var key := MakeKey(UserOr(msg.userId, "NO_USER"), msg.role, msg.id).value;
      Hello(t, msg, sock, now, lookup, alive, saved).reply == HelloAccepted <==>
        (HasUser(msg.userId) && lookup == Known(true) && saved.Ok? &&
         CheckAccountConflict(Reserve(t, key, msg, sock, now), msg.userId.value, msg.accountNumber, msg.role, sock).NoConflict?)
  {
    var key := MakeKey(UserOr(msg.userId, "NO_USER"), msg.role, msg.id).value;
    if HasUser(msg.userId) {
      var t1 := Reserve(t, key, msg, sock, now);
      assert MakeKey(msg.userId.value, msg.role, msg.id).value == key;
      assert IsDuplicateEA(t1, msg.userId.value, msg.role, msg.id, sock, alive) == Ok(false);
    }
  }

  /** An accepted EA is validated, online, connected, bound to this socket and carries the
      account number of the message; its user id is the stored one, or the message's for a new
      slot. */
  lemma HelloAcceptedEntry(t: EATable, msg: HelloMsg, sock: Sock, now: int, lookup: AccountLookup,
                           alive: Sock -> bool, saved: Result<string>)
    requires ValidTable(t) && MakeKey(UserOr(msg.userId, "NO_USER"), msg.role, msg.id).Ok?
    ensures var key := MakeKey(UserOr(msg.userId, "NO_USER"), msg.role, msg.id).value;
      var r := Hello(t, msg, sock, now, lookup, alive, saved);
      r.reply == HelloAccepted ==>
        key in r.table.entries &&
        var e := r.table.entries[key];
        e.socket == Some(sock) && e.connected && e.userValidated && e.state == "online" &&
        e.accountNumber == msg.accountNumber &&
        e.userId == (if key in t.entries then t.entries[key].userId else msg.userId.value)
  {
    var key := MakeKey(UserOr(msg.userId, "NO_USER"), msg.role, msg.id).value;
    if HasUser(msg.userId) {
      var t1 := Reserve(t, key, msg, sock, now);
      assert Hello(t, msg, sock, now, lookup, alive, saved) == HelloChecks(t1, key, msg, sock, lookup, alive, saved);
      AcceptedEntry(t1, key, msg, sock, lookup, alive, saved);
      assert t1.entries[key].socket == Some(sock);
      assert t1.entries[key].userId == if key in t.entries then t.entries[key].userId else msg.userId.value;
    }
  }

  /** An EA without a user stays registered, connected and bound to this socket. */
  lemma HelloAnonymousEntry(t: EATable, msg: HelloMsg, sock: Sock, now: int, lookup: AccountLookup,
                            alive: Sock -> bool, saved: Result<string>)
    requires ValidTable(t) && MakeKey(UserOr(msg.userId, "NO_USER"), msg.role, msg.id).Ok?
    ensures var key := MakeKey(UserOr(msg.userId, "NO_USER"), msg.role, msg.id).value;
      var r := Hello(t, msg, sock, now, lookup, alive, saved);
      r.reply == HelloAnonymous <==> !HasUser(msg.userId)
    ensures var key := MakeKey(UserOr(msg.userId, "NO_USER"), msg.role, msg.id).value;
      var r := Hello(t, msg, sock, now, lookup, alive, saved);
      r.reply == HelloAnonymous ==>
        key in r.table.entries && r.table.entries[key].socket == Some(sock) && r.table.entries[key].connected
  {
    var key := MakeKey(UserOr(msg.userId, "NO_USER"), msg.role, msg.id).value;
    var t1 := Reserve(t, key, msg, sock, now);
    if HasUser(msg.userId) {
      assert Hello(t, msg, sock, now, lookup, alive, saved) == HelloChecks(t1, key, msg, sock, lookup, alive, saved);
    }
  }

  /** The entry the checks accept: the reserved one, validated, online, connected, with the
      message's account number. */
  lemma AcceptedEntry(t1: EATable, key: string, msg: HelloMsg, sock: Sock, lookup: AccountLookup,
                      alive: Sock -> bool, saved: Result<string>)
    requires ValidTable(t1) && key in t1.entries && HasUser(msg.userId)
    ensures var r := HelloChecks(t1, key, msg, sock, lookup, alive, saved);
      r.reply == HelloAccepted ==>
        key in r.table.entries &&
        r.table.entries[key] == t1.entries[key].(userValidated := true, state := "online",
                                                 accountNumber := msg.accountNumber, connected := true,
                                                 settings := if saved.value != "" then saved.value else t1.entries[key].settings)
  {
  }

  /** A refused `hello` from a socket that held no entry before leaves no trace: the registry is
      as it was, less the key. */
  lemma HelloRejectLeavesNoTrace(t: EATable, msg: HelloMsg, sock: Sock, now: int, lookup: AccountLookup,
                                 alive: Sock -> bool, saved: Result<string>)
    requires ValidTable(t) && MakeKey(UserOr(msg.userId, "NO_USER"), msg.role, msg.id).Ok?
    requires forall k :: k in t.keys && k in t.entries ==> t.entries[k].socket != Some(sock)
    ensures var key := MakeKey(UserOr(msg.userId, "NO_USER"), msg.role, msg.id).value;
      var r := Hello(t, msg, sock, now, lookup, alive, saved);
      r.reply.HelloRejected? || (r.reply == HelloDropped && lookup.LookupFailed?) ==>
        r.table.entries == t.entries - {key}
  {
    var key := MakeKey(UserOr(msg.userId, "NO_USER"), msg.role, msg.id).value;
    if HasUser(msg.userId) {
      var t1 := Reserve(t, key, msg, sock, now);
      assert Hello(t, msg, sock, now, lookup, alive, saved) == HelloChecks(t1, key, msg, sock, lookup, alive, saved);
      DropReserved(t, key, msg, sock, now);
    }
  }

  /** Dropping the socket of a slot reserved by a socket that held no entry removes that slot. */
  lemma DropReserved(t: EATable, key: string, msg: HelloMsg, sock: Sock, now: int)
    requires ValidTable(t)
    requires forall k :: k in t.keys && k in t.entries ==> t.entries[k].socket != Some(sock)
    ensures DropSocket(Reserve(t, key, msg, sock, now), sock).entries == t.entries - {key}
  {
    var t1 := Reserve(t, key, msg, sock, now);
    var f := FindEABySocket(t1, sock);
    assert key in t1.keys;
    assert f.Some?;
    assert f.value.key == key;
    SameBesides(t1.entries, t.entries, key);
  }

  /** Two maps that agree on every key but one agree once that key is taken out. */
  lemma SameBesides<K, V>(a: map<K, V>, b: map<K, V>, key: K)
    requires forall k :: k != key ==> (k in a <==> k in b)
    requires forall k :: k != key && k in b ==> a[k] == b[k]
    ensures a - {key} == b - {key}
  {
    assert (a - {key}).Keys == (b - {key}).Keys;
  }

  /** `handleHelloMessage` on the registry, step by step. */
  method HandleHello(registry: Registry, msg: HelloMsg, sock: Sock, now: int, lookup: AccountLookup,
                     alive: Sock -> bool, saved: Result<string>) returns (reply: HelloReply)
    requires registry.Valid()
    modifies registry
    ensures registry.Valid()
    ensures HelloResult(registry.table, reply) == Hello(old(registry.table), msg, sock, now, lookup, alive, saved)
  {
    var k := MakeKey(UserOr(msg.userId, "NO_USER"), msg.role, msg.id);
    if k.Err? {
      return HelloIgnored;
    }
    var key := k.value;
    ReserveSlot(registry, key, msg, sock, now);
    if !HasUser(msg.userId) {
      var cur := registry.table.entries[key];
      registry.Set(key, cur.(socket := Some(sock), connected := true));
      return HelloAnonymous;
    }
    reply := CheckHello(registry, key, msg, sock, lookup, alive, saved);
  }

  /** The reservation that opens `handleHelloMessage`, in place. */
  method ReserveSlot(registry: Registry, key: string, msg: HelloMsg, sock: Sock, now: int)
    requires registry.Valid()
    modifies registry
    ensures registry.Valid() && registry.table == Reserve(old(registry.table), key, msg, sock, now)
  {
    if key !in registry.table.entries {
      registry.Set(key, CreateEAData(UserOr(msg.userId, ""), msg.role, msg.id, sock, now, NoOverrides));
    } else {
      var existing := registry.table.entries[key];
      if msg.userId != Some(existing.userId) {
        existing := existing.(userValidated := false);
      }
      registry.Set(key, existing.(socket := Some(sock), lastSeen := now, connected := true));
    }
  }

  /** The checks of `handleHelloMessage` after the reservation, in place. */
  method CheckHello(registry: Registry, key: string, msg: HelloMsg, sock: Sock, lookup: AccountLookup,
                    alive: Sock -> bool, saved: Result<string>) returns (reply: HelloReply)
    requires registry.Valid() && key in registry.table.entries && HasUser(msg.userId)
    modifies registry
    ensures registry.Valid()
    ensures HelloResult(registry.table, reply) == HelloChecks(old(registry.table), key, msg, sock, lookup, alive, saved)
  {
    var userId := msg.userId.value;
    if lookup.LookupFailed? {
      var _, _ := registry.DeleteEABySocket(sock);
      return HelloDropped;
    }
    if lookup.Unknown? || !lookup.active {
      var _, _ := registry.DeleteEABySocket(sock);
      return HelloRejected("invalid_userid");
    }
    // Both checks read the registry as the reservation left it.
    var duplicate := IsDuplicateEA(registry.table, userId, msg.role, msg.id, sock, alive) == Ok(true);
    var conflict := CheckAccountConflict(registry.table, userId, msg.accountNumber, msg.role, sock).Conflict?;
    if duplicate || conflict {
      var _, _ := registry.DeleteEABySocket(sock);
      return if duplicate then HelloRejected("duplicate_ea") else HelloRejected("account_conflict");
    }
    var cur := registry.table.entries[key];
    registry.Set(key, cur.(userValidated := true, state := "online", accountNumber := msg.accountNumber,
                           connected := true));
    if saved.Err? {
      var _, _ := registry.DeleteEABySocket(sock);
      return HelloDropped;
    }
    if saved.value != "" {
      cur := registry.table.entries[key];
      registry.Set(key, cur.(settings := saved.value));
    }
    reply := HelloAccepted;
  }

  // ---------------------------------------------------------------- handlers that find the entry by socket

  /** A `status` message; `balance` and `equity` are `None` when absent. */
  datatype StatusMsg = StatusMsg(state: string, balance: Option<int>, equity: Option<int>,
                                 accountNumber: string, accountName: string, userId: string)

  datatype ErrorMsg = ErrorMsg(symbol: string, description: string)

  /** A `deinit`; `reason` is `None` when absent. */
  datatype DeinitMsg = DeinitMsg(reason: Option<int>, wasRemoveCommand: bool)

  datatype TickMsg = TickMsg(time: string, unix: int)

  datatype AccountInfoMsg = AccountInfoMsg(balance: int, equity: int, freeMargin: int, marginLevel: int)

  datatype TradesLiveMsg = TradesLiveMsg(positions: seq<Position>, orders: seq<Order>)

  datatype TradesHistoryMsg = TradesHistoryMsg(deals: seq<string>, deletedOrders: seq<string>)

  /** The entry bound to the socket, replaced by `ea`; with no such entry, the table itself. */
  function AtSocket(t: EATable, sock: Sock, ea: EA): (r: EATable)
    requires ValidTable(t)
    ensures ValidTable(r) && r.keys == t.keys
    ensures FindEABySocket(t, sock).None? ==> r == t
    ensures FindEABySocket(t, sock).Some? ==>
              var key := FindEABySocket(t, sock).value.key;
              r.entries[key] == ea && forall k :: k in t.entries && k != key ==> k in r.entries && r.entries[k] == t.entries[k]
  {
    match FindEABySocket(t, sock)
    case None => t
    case Some(f) => Put(t, f.key, ea)
  }

  /** The entry a `status` message leaves: state, socket and last-seen always; balance and equity
      when present; account number, account name and user id when non-empty. */
  function StatusUpdate(ea: EA, msg: StatusMsg, sock: Sock, now: int): EA {
    ea.(state := msg.state,
        equity := msg.equity.GetOr(ea.equity),
        balance := msg.balance.GetOr(ea.balance),
        accountNumber := if msg.accountNumber != "" then msg.accountNumber else ea.accountNumber,
        accountName := if msg.accountName != "" then msg.accountName else ea.accountName,
        userId := if msg.userId != "" then msg.userId else ea.userId,
        lastSeen := now,
        socket := Some(sock))
  }

  /** `handleStatusMessage`. */
  method HandleStatus(registry: Registry, msg: StatusMsg, sock: Sock, now: int)
    requires registry.Valid()
    modifies registry
    ensures registry.Valid()
    ensures var found := FindEABySocket(old(registry.table), sock);
      (found.None? ==> registry.table == old(registry.table)) &&
      (found.Some? ==> registry.table == Put(old(registry.table), found.value.key, StatusUpdate(found.value.ea, msg, sock, now)))
  {
    var found := FindEABySocket(registry.table, sock);
    if found.None? {
      return;
    }
    registry.Set(found.value.key, StatusUpdate(found.value.ea, msg, sock, now));
  }

  /** The error list after a report: the report goes last, and the oldest goes when more than
      `MAX_ERRORS` would be kept. */
  function PushError(errors: seq<ErrorRecord>, e: ErrorRecord): (r: seq<ErrorRecord>)
    ensures |r| <= |errors| + 1
    ensures |errors| <= MAX_ERRORS ==> |r| == if |errors| < MAX_ERRORS then |errors| + 1 else MAX_ERRORS
    ensures |r| > 0 && r[|r| - 1] == e
    ensures r == (errors + [e])[|errors| + 1 - |r|..]
  {
    var pushed := errors + [e];
    if |pushed| > MAX_ERRORS then pushed[1..] else pushed
  }

  /** Every entry keeps at most `MAX_ERRORS` error reports. */
  predicate ErrorsCapped(t: EATable) {
    forall k :: k in t.entries ==> |t.entries[k].errors| <= MAX_ERRORS
  }

  /** `handleErrorMessage`: the time of the report is the local time text of `now`. */
  method HandleError(registry: Registry, msg: ErrorMsg, sock: Sock, time: string)
    requires registry.Valid()
    modifies registry
    ensures registry.Valid()
    ensures var found := FindEABySocket(old(registry.table), sock);
      var rec := ErrorRecord(time, if msg.symbol != "" then msg.symbol else "N/A",
                             if msg.description != "" then msg.description else "Unknown error");
      registry.table == if found.None? then old(registry.table)
                        else AtSocket(old(registry.table), sock, found.value.ea.(errors := PushError(found.value.ea.errors, rec)))
    ensures ErrorsCapped(old(registry.table)) ==> ErrorsCapped(registry.table)
  {
    var found := FindEABySocket(registry.table, sock);
    if found.None? {
      return;
    }
    var rec := ErrorRecord(time, if msg.symbol != "" then msg.symbol else "N/A",
                           if msg.description != "" then msg.description else "Unknown error");
    var cur := found.value.ea;
    ghost var t0 := registry.table;
    registry.Set(found.value.key, cur.(errors := PushError(cur.errors, rec)));
    assert registry.table == AtSocket(t0, sock, cur.(errors := PushError(cur.errors, rec)));
    if ErrorsCapped(t0) {
      CappedAfterPut(t0, found.value.key, cur.(errors := PushError(cur.errors, rec)));
    }
  }

  /** Storing an entry whose log is capped keeps every log capped. */
  lemma CappedAfterPut(t: EATable, key: string, ea: EA)
    requires ValidTable(t) && ErrorsCapped(t) && |ea.errors| <= MAX_ERRORS
    ensures ErrorsCapped(Put(t, key, ea))
  {
  }

  /** The `deinit` reasons that remove the entry: 1 (removed from the chart), 3 (timeframe or
      symbol change), 5 (settings changed), and 0 when the dashboard asked for the removal. */
  predicate DeinitRemoves(msg: DeinitMsg) {
    msg.reason == Some(1) || (msg.reason == Some(0) && msg.wasRemoveCommand) ||
    msg.reason == Some(3) || msg.reason == Some(5)
  }

  /** `handleDeinitMessage`: for a bound socket, the entry goes for a removing reason and is
      marked 'offline' for any other; `confirmed` says a confirmation was broadcast. */
  method HandleDeinit(registry: Registry, msg: DeinitMsg, sock: Sock) returns (confirmed: bool)
    requires registry.Valid()
    modifies registry
    ensures registry.Valid()
    ensures var found := FindEABySocket(old(registry.table), sock);
      confirmed == found.Some? &&
      (found.None? ==> registry.table == old(registry.table)) &&
      (found.Some? && DeinitRemoves(msg) ==> registry.table == Remove(old(registry.table), found.value.key)) &&
      (found.Some? && !DeinitRemoves(msg) ==>
         registry.table == Put(old(registry.table), found.value.key, found.value.ea.(state := "offline")))
  {
    var found := FindEABySocket(registry.table, sock);
    if found.None? {
      return false;
    }
    confirmed := true;
    var key, cur := found.value.key, found.value.ea;
    if msg.reason == Some(1) {
      var _ := registry.DeleteEAByKey(key);
    } else if msg.reason == Some(0) && msg.wasRemoveCommand {
      var _ := registry.DeleteEAByKey(key);
    } else if msg.reason == Some(3) {
      var _ := registry.DeleteEAByKey(key);
    } else if msg.reason == Some(5) {
      var _ := registry.DeleteEAByKey(key);
    } else {
      registry.Set(key, cur.(state := "offline"));
    }
  }

  /** `handleTickMessage`: the EA time is the message's `unix`, or `now` when it is 0. */
  method HandleTick(registry: Registry, msg: TickMsg, sock: Sock, now: int)
    requires registry.Valid()
    modifies registry
    ensures registry.Valid()
    ensures var found := FindEABySocket(old(registry.table), sock);
      registry.table == if found.None? then old(registry.table)
        else AtSocket(old(registry.table), sock,
                      found.value.ea.(ts := if msg.unix != 0 then msg.unix else now,
                                      lastTick := Some(Tick(msg.time, msg.unix)), lastSeen := now))
  {
    var found := FindEABySocket(registry.table, sock);
    if found.None? {
      return;
    }
    var cur := found.value.ea;
    registry.Set(found.value.key, cur.(ts := if msg.unix != 0 then msg.unix else now,
                                       lastTick := Some(Tick(msg.time, msg.unix)), lastSeen := now));
  }

  /** `handleAccountInfoMessage`: the four figures, 0 when absent, replace the account block. */
  method HandleAccountInfo(registry: Registry, msg: AccountInfoMsg, sock: Sock, now: int)
    requires registry.Valid()
    modifies registry
    ensures registry.Valid()
    ensures var found := FindEABySocket(old(registry.table), sock);
      registry.table == if found.None? then old(registry.table)
        else AtSocket(old(registry.table), sock,
                      found.value.ea.(accountInfo := Some(AccountInfo(msg.balance, msg.equity, msg.freeMargin, msg.marginLevel)),
                                      lastSeen := now))
  {
    var found := FindEABySocket(registry.table, sock);
    if found.None? {
      return;
    }
    var cur := found.value.ea;
    registry.Set(found.value.key, cur.(accountInfo := Some(AccountInfo(msg.balance, msg.equity, msg.freeMargin, msg.marginLevel)),
                                       lastSeen := now));
  }

  /** `handleTradesLiveMessage`: the snapshot replaces the previous one whole; nothing is copied
      here, the copy service reads it on its next tick. */
  method HandleTradesLive(registry: Registry, msg: TradesLiveMsg, sock: Sock, now: int)
    requires registry.Valid()
    modifies registry
    ensures registry.Valid()
    ensures var found := FindEABySocket(old(registry.table), sock);
      registry.table == if found.None? then old(registry.table)
        else AtSocket(old(registry.table), sock,
                      found.value.ea.(tradesLive := Some(TradesLive(msg.positions, msg.orders)),
                                      lastSeen := now, lastUpdated := now))
  {
    var found := FindEABySocket(registry.table, sock);
    if found.None? {
      return;
    }
    var cur := found.value.ea;
    registry.Set(found.value.key, cur.(tradesLive := Some(TradesLive(msg.positions, msg.orders)),
                                       lastSeen := now, lastUpdated := now));
  }

  /** `handleTradesHistoryMessage`: the history snapshot replaces the previous one. */
  method HandleTradesHistory(registry: Registry, msg: TradesHistoryMsg, sock: Sock, now: int)
    requires registry.Valid()
    modifies registry
    ensures registry.Valid()
    ensures var found := FindEABySocket(old(registry.table), sock);
      registry.table == if found.None? then old(registry.table)
        else AtSocket(old(registry.table), sock,
                      found.value.ea.(tradesHistory := Some(TradesHistory(msg.deals, msg.deletedOrders)), lastSeen := now))
  {
    var found := FindEABySocket(registry.table, sock);
    if found.None? {
      return;
    }
    var cur := found.value.ea;
    registry.Set(found.value.key, cur.(tradesHistory := Some(TradesHistory(msg.deals, msg.deletedOrders)), lastSeen := now));
  }

  /** `handleBrokerTimeMessage`. */
  method HandleBrokerTime(registry: Registry, brokerTime: string, sock: Sock, now: int)
    requires registry.Valid()
    modifies registry
    ensures registry.Valid()
    ensures var found := FindEABySocket(old(registry.table), sock);
      registry.table == if found.None? then old(registry.table)
        else AtSocket(old(registry.table), sock, found.value.ea.(brokerTime := brokerTime, lastSeen := now))
  {
    var found := FindEABySocket(registry.table, sock);
    if found.None? {
      return;
    }
    var cur := found.value.ea;
    registry.Set(found.value.key, cur.(brokerTime := brokerTime, lastSeen := now));
  }

  // ---------------------------------------------------------------- trade_action

  /** A `trade_action` from a controller; `controllerTicket` is 0 when absent. */
  datatype TradeActionMsg = TradeActionMsg(id: string, userId: string, action: string, controllerTicket: nat,
                                           volume: int, openPrice: int, sl: int, tp: int)

  /** The request subtype an action becomes: closing a position exits it, removing an order exits
      it, and the two modifications modify; any other action has none. */
  function ActionSubtype(action: string): (r: Option<Subtype>)
    ensures r.Some? <==> action in {"close_position", "modify_position", "remove_order", "modify_order"}
    ensures r.Some? ==> SubtypeName(r.value) in {"Request_Exit.Pos", "Request_Modify.Pos", "Request_Exit.Ord", "Request_Modify.Ord"}
    ensures r.Some? ==> (r.value == ExitPos <==> action == "close_position") &&
                        (r.value == ModifyPos <==> action == "modify_position") &&
                        (r.value == ExitOrd <==> action == "remove_order") &&
                        (r.value == ModifyOrd <==> action == "modify_order")
  {
    if action == "close_position" then Some(ExitPos)
    else if action == "modify_position" then Some(ModifyPos)
    else if action == "remove_order" then Some(ExitOrd)
    else if action == "modify_order" then Some(ModifyOrd)
    else None
  }

  /** The request forwarded for an action, under `rid`; it names the controller's ticket. */
  function ActionRequest(kind: Subtype, msg: TradeActionMsg, rid: RequestId, now: int): (r: TradeRequest)
    requires kind in {ExitPos, ModifyPos, ExitOrd, ModifyOrd}
    ensures WellFormed(r) && r.subtype == kind && r.requestId == rid && r.controllerTicket == msg.controllerTicket
    ensures r.jitterSeconds.None?
  {
    match kind
    case ExitPos => BuildExitPositionRequest(msg.controllerTicket, msg.volume, rid, now)
    case ModifyPos => BuildModifyPositionRequest(msg.controllerTicket, msg.sl, msg.tp, rid, now)
    case ExitOrd => BuildExitOrderRequest(msg.controllerTicket, rid, now)
    case ModifyOrd => BuildModifyOrderRequest(msg.controllerTicket, msg.openPrice, msg.volume, msg.sl, msg.tp, rid, now)
  }

  /** One forwarded request: the prop it went to and what was written to its socket. */
  datatype Forward = Forward(propId: string, sent: Sent)

  /** The sockets of the props that have one, in order. */
  function Sockets(props: seq<Found>): (r: seq<Sock>)
    ensures |r| <= |props|
    decreases |props|
  {
    if |props| == 0 then []
    else
      var before := Sockets(props[..|props| - 1]);
      var p := props[|props| - 1].ea;
      if p.socket.Some? then before + [p.socket.value] else before
  }

  /** The forwards of one action to the props in turn, with consecutive ids from `firstId`. */
  function ActionForwards(props: seq<Found>, msg: TradeActionMsg, firstId: nat, now: int): seq<Forward>
    decreases |props|
  {
    if |props| == 0 then []
    else
      var before := ActionForwards(props[..|props| - 1], msg, firstId, now);
      var p := props[|props| - 1].ea;
      var kind := ActionSubtype(msg.action);
      if p.socket.None? || kind.None? then before
      else
        var rid := firstId + |before|;
        before + [Forward(p.id, Sent(p.socket.value, ActionRequest(kind.value, msg, rid, now),
                                     TimeoutMs(0, None)))]
  }

  /** An unknown action forwards nothing; a known one forwards exactly one request to each prop
      that has a socket, in order, the i-th under id `firstId + i`, naming the controller's ticket
      and timing out after REQUEST_TIMEOUT. */
  lemma {:induction false} ActionForwardsShape(props: seq<Found>, msg: TradeActionMsg, firstId: nat, now: int)
    ensures var r := ActionForwards(props, msg, firstId, now);
      (ActionSubtype(msg.action).None? ==> r == []) &&
      (ActionSubtype(msg.action).Some? ==> |r| == |Sockets(props)|) &&
      forall i :: 0 <= i < |r| ==>
        r[i].sent.sock == Sockets(props)[i] && r[i].sent.timeoutMs == REQUEST_TIMEOUT &&
        r[i].sent.request == ActionRequest(ActionSubtype(msg.action).value, msg, firstId + i, now)
    decreases |props|
  {
    if |props| > 0 {
      ActionForwardsShape(props[..|props| - 1], msg, firstId, now);
    }
  }

  /** The pending table after the forwards are registered; their callbacks only log. */
  function Register(p: PendingTable, fs: seq<Forward>, action: string, now: int): (q: PendingTable)
    ensures forall id :: id in q <==> id in p || exists i :: 0 <= i < |fs| && fs[i].sent.request.requestId == id
    decreases |fs|
  {
    if |fs| == 0 then p
    else
      var f := fs[|fs| - 1];
      var before := Register(p, fs[..|fs| - 1], action, now);
      assert forall i :: 0 <= i < |fs| - 1 ==> fs[..|fs| - 1][i] == fs[i];
      before[f.sent.request.requestId := PendingRequest(f.sent.request, now, LogAction(action, f.propId), f.propId)]
  }

  /** The props a `trade_action` goes to: the connected props of the user named in the message. */
  function ActionProps(t: EATable, msg: TradeActionMsg): seq<Found> {
    UserProps(GetEAsByType(t, "prop"), msg.userId, true)
  }

  /** Whether `handleTradeActionMessage` forwards at all: every field present and the sender a
      registered controller. */
  predicate ActionAccepted(t: EATable, msg: TradeActionMsg, sock: Sock) {
    msg.id != "" && msg.userId != "" && msg.action != "" && msg.controllerTicket != 0 &&
    FindEABySocket(t, sock).Some? && FindEABySocket(t, sock).value.ea.role == "controller"
  }

  lemma ForwardsSkip(props: seq<Found>, i: nat, msg: TradeActionMsg, firstId: nat, now: int, before: seq<Forward>)
    requires i < |props| && before == ActionForwards(props[..i], msg, firstId, now)
    requires props[i].ea.socket.None? || ActionSubtype(msg.action).None?
    ensures ActionForwards(props[..i + 1], msg, firstId, now) == before
  {
    assert props[..i + 1][..i] == props[..i];
  }

  lemma ForwardsPush(props: seq<Found>, i: nat, msg: TradeActionMsg, firstId: nat, now: int,
                     before: seq<Forward>, f: Forward)
    requires i < |props| && before == ActionForwards(props[..i], msg, firstId, now)
    requires props[i].ea.socket.Some? && ActionSubtype(msg.action).Some?
    requires f == Forward(props[i].ea.id, Sent(props[i].ea.socket.value,
                    ActionRequest(ActionSubtype(msg.action).value, msg, firstId + |before|, now), TimeoutMs(0, None)))
    ensures ActionForwards(props[..i + 1], msg, firstId, now) == before + [f]
  {
    assert props[..i + 1][..i] == props[..i];
  }

  lemma RegisterSnoc(p: PendingTable, fs: seq<Forward>, f: Forward, action: string, now: int)
    ensures Register(p, fs + [f], action, now) ==
              Register(p, fs, action, now)[f.sent.request.requestId :=
                PendingRequest(f.sent.request, now, LogAction(action, f.propId), f.propId)]
  {
    assert (fs + [f])[..|fs|] == fs;
  }

  /** `handleTradeActionMessage`: a request per connected prop of the user with a socket, each
      under a fresh id, waiting in the pending table with a callback that only logs. */
  method HandleTradeAction(registry: Registry, rm: RequestManager, msg: TradeActionMsg, sock: Sock, now: int)
      returns (forwards: seq<Forward>)
    requires rm.Valid()
    modifies rm
    ensures rm.Valid()
    ensures !ActionAccepted(registry.table, msg, sock) ==>
              forwards == [] && rm.pending == old(rm.pending) && rm.nextId == old(rm.nextId)
    ensures ActionAccepted(registry.table, msg, sock) ==>
              forwards == ActionForwards(ActionProps(registry.table, msg), msg, old(rm.nextId), now) &&
              rm.nextId == old(rm.nextId) + |forwards| &&
              rm.pending == Register(old(rm.pending), forwards, msg.action, now)
  {
    forwards := [];
    if msg.id == "" || msg.userId == "" || msg.action == "" || msg.controllerTicket == 0 {
      return;
    }
    var found := FindEABySocket(registry.table, sock);
    if found.None? || found.value.ea.role != "controller" {
      return;
    }
    var props := UserProps(GetEAsByType(registry.table, "prop"), msg.userId, true);
    if |props| == 0 {
      return;
    }
    forwards := ForwardAll(rm, props, msg, now);
  }

  /** The loop of `handleTradeActionMessage` over the props. */
  method ForwardAll(rm: RequestManager, props: seq<Found>, msg: TradeActionMsg, now: int) returns (forwards: seq<Forward>)
    requires rm.Valid()
    modifies rm
    ensures rm.Valid()
    ensures forwards == ActionForwards(props, msg, old(rm.nextId), now)
    ensures rm.nextId == old(rm.nextId) + |forwards|
    ensures rm.pending == Register(old(rm.pending), forwards, msg.action, now)
  {
    forwards := [];
    ghost var firstId := rm.nextId;
    ghost var p0 := rm.pending;
    var i := 0;
    while i < |props|
      invariant 0 <= i <= |props|
      invariant rm.Valid()
      invariant forwards == ActionForwards(props[..i], msg, firstId, now)
      invariant rm.nextId == firstId + |forwards|
      invariant rm.pending == Register(p0, forwards, msg.action, now)
    {
      var prop := props[i].ea;
      var kind := ActionSubtype(msg.action);
      if prop.socket.Some? && kind.Some? {
        var rid := rm.GenerateRequestId();
        assert rid == firstId + |forwards|;
        var request := ActionRequest(kind.value, msg, rid, now);
        var _, _, timeoutMs := rm.SendTradeRequest(Some(prop), request, LogAction(msg.action, prop.id), 0, now);
        assert timeoutMs == TimeoutMs(0, None);
        var f := Forward(prop.id, Sent(prop.socket.value, request, timeoutMs));
        RegisterSnoc(p0, forwards, f, msg.action, now);
        ForwardsPush(props, i, msg, firstId, now, forwards, f);
        forwards := forwards + [f];
      } else {
        ForwardsSkip(props, i, msg, firstId, now, forwards);
      }
      i := i + 1;
    }
    assert props[..i] == props;
  }
}
