/**
 * The session registry: every connected EA is one entry of an insertion-ordered map keyed
 * `userId:role:eaId`, found again by its socket, its EA identifier, its role or its user.
 */
module EAManager {
  import opened Wrappers

  /** A TCP socket, by identity. */
  type Sock = nat

  /** An open position as a controller reports it; prices and volumes are kept as opaque integers. */
  datatype Position = Position(ticket: nat, symbol: string, kind: string, volume: int, stopLoss: int, takeProfit: int)

  /** A pending order as a controller reports it. */
  datatype Order = Order(ticket: nat, symbol: string, kind: string, volume: int, priceOpen: int,
                         stopLoss: int, takeProfit: int)

  /** The live snapshot of a `trades_live` message. The statistics and profit blocks are not kept. */
  datatype TradesLive = TradesLive(positions: seq<Position>, orders: seq<Order>)

  /** The history snapshot of a `trades_history` message; deals and orders are opaque records. */
  datatype TradesHistory = TradesHistory(deals: seq<string>, deletedOrders: seq<string>)

  datatype AccountInfo = AccountInfo(balance: int, equity: int, freeMargin: int, marginLevel: int)

  datatype Tick = Tick(time: string, unix: int)

  datatype ErrorRecord = ErrorRecord(time: string, symbol: string, description: string)

  /** One registry entry. `tradesLive` holds `Some(TradesLive([], []))` for the empty object `{}`
      that a fresh entry carries (it is truthy, and its missing arrays read as empty); `None` stands
      for an absent snapshot. `accountInfo` and `tradesHistory` use `None` for `{}`, and `settings`
      is the saved settings document, "" for `{}`. */
  datatype EA = EA(
    id: string, userId: string, role: string,
    connected: bool, userValidated: bool, state: string,
    balance: int, equity: int, freeMargin: int, marginLevel: int,
    accountNumber: string, accountName: string,
    ts: int, lastTick: Option<Tick>, blocked: bool, enabled: bool,
    errors: seq<ErrorRecord>, lastSeen: int, socket: Option<Sock>, settings: string,
    accountInfo: Option<AccountInfo>, tradesLive: Option<TradesLive>, tradesHistory: Option<TradesHistory>,
    brokerTime: string, lastUpdated: int)

  /** An entry found in the registry, with its key. */
  datatype Found = Found(key: string, ea: EA)

  // ---------------------------------------------------------------- keys

  const SEP: char := ':'

  /** `makeKey`: the composite key; refused when a component is empty. */
  function MakeKey(userId: string, role: string, eaId: string): (r: Result<string>)
    ensures r.Ok? <==> userId != "" && role != "" && eaId != ""
    ensures r.Ok? ==> r.value == userId + [SEP] + role + [SEP] + eaId
    ensures r.Ok? ==> |r.value| == |userId| + |role| + |eaId| + 2
  {
    if userId == "" || role == "" || eaId == "" then Err("makeKey: Invalid parameters")
    else Ok(userId + [SEP] + role + [SEP] + eaId)
  }

  datatype KeyParts = KeyParts(userId: string, role: string, eaId: string)

  predicate NoSep(s: string) {
    forall i :: 0 <= i < |s| ==> s[i] != SEP
  }

  /** `String.prototype.split` on one character: the maximal separator-free pieces, in order. */
  function SplitOn(s: string, c: char): (parts: seq<string>)
    ensures |parts| >= 1
  {
    if |s| == 0 then [""]
    else if s[0] == c then [""] + SplitOn(s[1..], c)
    else
      var rest := SplitOn(s[1..], c);
      [[s[0]] + rest[0]] + rest[1..]
  }

  /** The pieces joined back with the separator. */
  function Join(parts: seq<string>, c: char): string
    requires |parts| >= 1
  {
    if |parts| == 1 then parts[0] else parts[0] + [c] + Join(parts[1..], c)
  }

  /** `parseKey`: the three components of a key, or nothing unless it splits into exactly three. */
  function ParseKey(key: string): Option<KeyParts> {
    var parts := SplitOn(key, SEP);
    if |parts| != 3 then None else Some(KeyParts(parts[0], parts[1], parts[2]))
  }

  /** Splitting and joining are inverse: no text is lost and no piece holds a separator. */
  lemma {:induction false} SplitJoin(s: string)
    ensures Join(SplitOn(s, SEP), SEP) == s
    ensures forall i :: 0 <= i < |SplitOn(s, SEP)| ==> NoSep(SplitOn(s, SEP)[i])
  {
    if |s| > 0 {
      SplitJoin(s[1..]);
      var rest := SplitOn(s[1..], SEP);
      if s[0] == SEP {
        assert SplitOn(s, SEP) == [""] + rest;
        assert ([""] + rest)[1..] == rest;
        assert s == [SEP] + s[1..];
      } else {
        var parts := SplitOn(s, SEP);
        assert parts == [[s[0]] + rest[0]] + rest[1..];
        if |rest| > 1 {
          assert parts[1..] == rest[1..];
          assert Join(rest, SEP) == rest[0] + [SEP] + Join(rest[1..], SEP);
        }
        assert s == [s[0]] + s[1..];
      }
    }
  }

  /** A separator-free prefix followed by the separator is split off as one piece. */
  lemma {:induction false} SplitPrefix(a: string, b: string)
    requires NoSep(a)
    ensures SplitOn(a + [SEP] + b, SEP) == [a] + SplitOn(b, SEP)
    decreases |a|
  {
    if |a| == 0 {
      assert a + [SEP] + b == [SEP] + b;
      assert ([SEP] + b)[1..] == b;
    } else {
      var s := a + [SEP] + b;
      assert s[1..] == a[1..] + [SEP] + b;
      SplitPrefix(a[1..], b);
      assert [a[0]] + a[1..] == a;
    }
  }

  /** A separator-free string is one piece. */
  lemma {:induction false} SplitNone(a: string)
    requires NoSep(a)
    ensures SplitOn(a, SEP) == [a]
  {
    if |a| > 0 {
      SplitNone(a[1..]);
      assert [a[0]] + a[1..] == a;
    }
  }

  /** `parseKey(makeKey(u, r, e))` gives back the components when none of them holds ':'. */
  lemma ParseMakeKey(userId: string, role: string, eaId: string)
    requires MakeKey(userId, role, eaId).Ok?
    requires NoSep(userId) && NoSep(role) && NoSep(eaId)
    ensures ParseKey(MakeKey(userId, role, eaId).value) == Some(KeyParts(userId, role, eaId))
  {
    var key := userId + [SEP] + role + [SEP] + eaId;
    assert key == userId + [SEP] + (role + [SEP] + eaId);
    SplitPrefix(userId, role + [SEP] + eaId);
    SplitPrefix(role, eaId);
    SplitNone(eaId);
  }

  /** Conversely, every key that parses is the three parts joined by ':', none holding ':'. */
  lemma ParsedKeyShape(key: string)
    requires ParseKey(key).Some?
    ensures var p := ParseKey(key).value;
      key == p.userId + [SEP] + p.role + [SEP] + p.eaId &&
      NoSep(p.userId) && NoSep(p.role) && NoSep(p.eaId)
  {
    var parts := SplitOn(key, SEP);
    SplitJoin(key);
    assert parts[1..][1..] == [parts[2]];
    assert Join(parts[1..][1..], SEP) == parts[2];
    assert Join(parts[1..], SEP) == parts[1] + [SEP] + parts[2];
    assert Join(parts, SEP) == parts[0] + [SEP] + (parts[1] + [SEP] + parts[2]);
  }

  // ---------------------------------------------------------------- the ordered map

  /** A JavaScript Map: the keys in insertion order and the entry of each. */
  datatype EATable = EATable(keys: seq<string>, entries: map<string, EA>)

  predicate Distinct(keys: seq<string>) {
    forall i, j :: 0 <= i < j < |keys| ==> keys[i] != keys[j]
  }

  predicate ValidTable(t: EATable) {
    Distinct(t.keys) && (forall k :: k in t.entries ==> k in t.keys) && (forall k :: k in t.keys ==> k in t.entries)
  }

  /** `Map.set`: a new key goes last, an existing key keeps its place. */
  function Put(t: EATable, key: string, ea: EA): (r: EATable)
    requires ValidTable(t)
    ensures ValidTable(r) && r.entries == t.entries[key := ea]
    ensures key in t.entries ==> r.keys == t.keys
    ensures key !in t.entries ==> r.keys == t.keys + [key]
  {
    if key in t.entries then EATable(t.keys, t.entries[key := ea])
    else EATable(t.keys + [key], t.entries[key := ea])
  }

  function RemoveKey(keys: seq<string>, key: string): (r: seq<string>)
    ensures forall x :: x in r <==> x in keys && x != key
    ensures Distinct(keys) ==> Distinct(r)
    ensures key !in keys ==> r == keys
  {
    if |keys| == 0 then []
    else if keys[0] == key then RemoveKey(keys[1..], key)
    else
      var rest := RemoveKey(keys[1..], key);
      assert Distinct(keys) ==> keys[0] !in keys[1..] && Distinct(keys[1..]);
      [keys[0]] + rest
  }

  /** `Map.delete`: the key leaves both the order and the entries; every other entry stays. */
  function Remove(t: EATable, key: string): (r: EATable)
    requires ValidTable(t)
    ensures ValidTable(r) && r.entries == t.entries - {key}
    ensures key !in t.entries ==> r == t
  {
    EATable(RemoveKey(t.keys, key), t.entries - {key})
  }

  const EmptyTable: EATable := EATable([], map[])

  // ---------------------------------------------------------------- lookups

  /** The first entry, in insertion order, that satisfies `matches`. */
  function FindFirst(keys: seq<string>, entries: map<string, EA>, matches: EA -> bool): (r: Option<Found>)
    ensures r.Some? ==> r.value.key in keys && r.value.key in entries &&
                        r.value.ea == entries[r.value.key] && matches(r.value.ea)
    ensures r.None? <==> forall k :: k in keys && k in entries ==> !matches(entries[k])
    ensures r.Some? ==> exists i :: 0 <= i < |keys| && keys[i] == r.value.key &&
                          forall j :: 0 <= j < i && keys[j] in entries ==> !matches(entries[keys[j]])
  {
    if |keys| == 0 then None
    else if keys[0] in entries && matches(entries[keys[0]]) then Some(Found(keys[0], entries[keys[0]]))
    else
      assert forall k :: k in keys ==> k == keys[0] || k in keys[1..];
      var r := FindFirst(keys[1..], entries, matches);
      assert r.Some? ==> exists i :: 0 <= i < |keys| && keys[i] == r.value.key &&
                           forall j :: 0 <= j < i && keys[j] in entries ==> !matches(entries[keys[j]]) by {
        if r.Some? {
          var i :| 0 <= i < |keys[1..]| && keys[1..][i] == r.value.key &&
                   forall j :: 0 <= j < i && keys[1..][j] in entries ==> !matches(entries[keys[1..][j]]);
          assert keys[i + 1] == r.value.key;
          assert forall j :: 0 <= j < i + 1 && keys[j] in entries ==> !matches(entries[keys[j]]) by {
            forall j | 0 <= j < i + 1 && keys[j] in entries
              ensures !matches(entries[keys[j]])
            {
              if j > 0 { assert keys[j] == keys[1..][j - 1]; }
            }
          }
        }
      }
      r
  }

  /** Every entry, in insertion order, that satisfies `matches`. */
  function Select(keys: seq<string>, entries: map<string, EA>, matches: EA -> bool): (r: seq<Found>)
    ensures |r| <= |keys|
    ensures forall i :: 0 <= i < |r| ==>
              r[i].key in keys && r[i].key in entries && r[i].ea == entries[r[i].key] && matches(r[i].ea)
  {
    if |keys| == 0 then []
    else
      var rest := Select(keys[1..], entries, matches);
      if keys[0] in entries && matches(entries[keys[0]]) then [Found(keys[0], entries[keys[0]])] + rest
      else rest
  }

  /** Nothing that matches is left out of a selection. */
  lemma {:induction false} SelectComplete(keys: seq<string>, entries: map<string, EA>, matches: EA -> bool, k: string)
    requires k in keys && k in entries && matches(entries[k])
    ensures exists i :: 0 <= i < |Select(keys, entries, matches)| && Select(keys, entries, matches)[i].key == k
  {
    var r := Select(keys, entries, matches);
    if keys[0] == k {
      assert r[0].key == k;
    } else {
      assert k in keys[1..];
      SelectComplete(keys[1..], entries, matches, k);
      var rest := Select(keys[1..], entries, matches);
      var i :| 0 <= i < |rest| && rest[i].key == k;
      if keys[0] in entries && matches(entries[keys[0]]) {
        assert r[i + 1] == rest[i];
      } else {
        assert r[i] == rest[i];
      }
    }
  }

  /** `findEABySocket`: the first entry, in insertion order, bound to this socket, or nothing exactly when none is. */
  function FindEABySocket(t: EATable, sock: Sock): (r: Option<Found>)
    ensures r.Some? ==> r.value.key in t.entries && r.value.ea == t.entries[r.value.key] &&
                        r.value.ea.socket == Some(sock)
    ensures r.None? <==> forall k :: k in t.keys && k in t.entries ==> t.entries[k].socket != Some(sock)
    ensures r.Some? ==> exists i :: 0 <= i < |t.keys| && t.keys[i] == r.value.key &&
                          forall j :: 0 <= j < i && t.keys[j] in t.entries ==> t.entries[t.keys[j]].socket != Some(sock)
  {
    FindFirst(t.keys, t.entries, (ea: EA) => ea.socket == Some(sock))
  }

  /** `findEAByEaId`: the first entry with this EA identifier, whatever its user and role. */
  function FindEAByEaId(t: EATable, eaId: string): (r: Option<Found>)
    ensures r.Some? ==> r.value.key in t.entries && r.value.ea == t.entries[r.value.key] && r.value.ea.id == eaId
    ensures r.None? <==> forall k :: k in t.keys && k in t.entries ==> t.entries[k].id != eaId
    ensures r.Some? ==> exists i :: 0 <= i < |t.keys| && t.keys[i] == r.value.key &&
                          forall j :: 0 <= j < i && t.keys[j] in t.entries ==> t.entries[t.keys[j]].id != eaId
  {
    FindFirst(t.keys, t.entries, (ea: EA) => ea.id == eaId)
  }

  /** `findEA`: the entry under the composite key; the key construction fails on an empty component. */
  function FindEA(t: EATable, userId: string, role: string, eaId: string): (r: Result<Option<Found>>)
    ensures r.Ok? <==> userId != "" && role != "" && eaId != ""
    ensures r.Ok? && r.value.Some? ==>
              r.value.value.key == MakeKey(userId, role, eaId).value &&
              r.value.value.key in t.entries && r.value.value.ea == t.entries[r.value.value.key]
    ensures r.Ok? && r.value.None? ==> MakeKey(userId, role, eaId).value !in t.entries
  {
    match MakeKey(userId, role, eaId)
    case Err(e) => Err(e)
    case Ok(key) => Ok(if key in t.entries then Some(Found(key, t.entries[key])) else None)
  }

  /** Every entry, in insertion order, that satisfies `matches`: each listed entry is stored and
      matches, and no matching entry is left out. */
  function SelectWhere(t: EATable, matches: EA -> bool): (r: seq<Found>)
    ensures forall i :: 0 <= i < |r| ==>
              r[i].key in t.entries && r[i].ea == t.entries[r[i].key] && matches(r[i].ea)
    ensures forall k :: k in t.keys && k in t.entries && matches(t.entries[k]) ==>
              exists i :: 0 <= i < |r| && r[i].key == k
  {
    var r := Select(t.keys, t.entries, matches);
    assert forall k :: k in t.keys && k in t.entries && matches(t.entries[k]) ==>
             exists i :: 0 <= i < |r| && r[i].key == k by {
      forall k | k in t.keys && k in t.entries && matches(t.entries[k])
        ensures exists i :: 0 <= i < |r| && r[i].key == k
      {
        SelectComplete(t.keys, t.entries, matches, k);
      }
    }
    r
  }

  /** `getEAsByUser`: exactly the entries of this user, in insertion order. */
  function GetEAsByUser(t: EATable, userId: string): (r: seq<Found>)
    ensures forall i :: 0 <= i < |r| ==>
              r[i].key in t.entries && r[i].ea == t.entries[r[i].key] && r[i].ea.userId == userId
    ensures forall k :: k in t.keys && k in t.entries && t.entries[k].userId == userId ==>
              exists i :: 0 <= i < |r| && r[i].key == k
  {
    SelectWhere(t, (ea: EA) => ea.userId == userId)
  }

  /** `getEAsByType`: exactly the entries with this role, in insertion order. */
  function GetEAsByType(t: EATable, role: string): (r: seq<Found>)
    ensures forall i :: 0 <= i < |r| ==>
              r[i].key in t.entries && r[i].ea == t.entries[r[i].key] && r[i].ea.role == role
    ensures forall k :: k in t.keys && k in t.entries && t.entries[k].role == role ==>
              exists i :: 0 <= i < |r| && r[i].key == k
  {
    SelectWhere(t, (ea: EA) => ea.role == role)
  }

  // ---------------------------------------------------------------- admission predicates

  /** `isDuplicateEA`: the key is held through a different socket that is still open and writable.
      Whether a socket is alive is a property of the operating system, given as `alive`. */
  function IsDuplicateEA(t: EATable, userId: string, role: string, eaId: string, current: Sock,
                         alive: Sock -> bool): (r: Result<bool>)
    ensures r.Ok? <==> MakeKey(userId, role, eaId).Ok?
    ensures r == Ok(true) <==>
              MakeKey(userId, role, eaId).Ok? &&
              (var key := MakeKey(userId, role, eaId).value;
               key in t.entries && t.entries[key].socket.Some? &&
               t.entries[key].socket.value != current && alive(t.entries[key].socket.value))
  {
    match MakeKey(userId, role, eaId)
    case Err(e) => Err(e)
    case Ok(key) =>
      if key !in t.entries then Ok(false)
      else
        var existing := t.entries[key];
        if existing.socket == Some(current) then Ok(false)
        else Ok(existing.socket.Some? && alive(existing.socket.value))
  }

  datatype Conflict = NoConflict | Conflict(conflictType: string)

  /** Controller against prop, or prop against controller. */
  predicate OppositeRole(myType: string, role: string) {
    (myType == "controller" && role == "prop") || (myType == "prop" && role == "controller")
  }

  /** An entry on another socket that blocks this EA from running on `accountNumber`. */
  predicate Conflicting(ea: EA, userId: string, accountNumber: string, myType: string, current: Sock) {
    ea.socket != Some(current) && ea.userId == userId && ea.accountNumber == accountNumber &&
    ea.state == "online" && ea.userValidated && OppositeRole(myType, ea.role)
  }

  /** The name reported for the role that conflicts with `myType`. */
  function ConflictType(myType: string): string {
    if myType == "controller" then "Prop" else "Controller"
  }

  function ConflictIn(keys: seq<string>, entries: map<string, EA>, userId: string, accountNumber: string,
                      myType: string, current: Sock): (r: Conflict)
    ensures r.Conflict? <==> exists k :: k in keys && k in entries &&
                                         Conflicting(entries[k], userId, accountNumber, myType, current)
    ensures r.Conflict? ==> r.conflictType == ConflictType(myType)
  {
    if |keys| == 0 then NoConflict
    else if keys[0] in entries && Conflicting(entries[keys[0]], userId, accountNumber, myType, current) then
      Conflict(ConflictType(myType))
    else
      assert forall k :: k in keys ==> k == keys[0] || k in keys[1..];
      ConflictIn(keys[1..], entries, userId, accountNumber, myType, current)
  }

  /** `checkAccountConflict`: with no account number there is no conflict; otherwise there is one
      exactly when another socket's validated, online entry of the same user runs the opposite role
      on the same account, and the conflict names that role. */
  function CheckAccountConflict(t: EATable, userId: string, accountNumber: string, myType: string,
                                current: Sock): (r: Conflict)
    ensures accountNumber == "" ==> r == NoConflict
    ensures accountNumber != "" ==>
              (r.Conflict? <==> exists k :: k in t.keys && k in t.entries &&
                                            Conflicting(t.entries[k], userId, accountNumber, myType, current))
    ensures r.Conflict? ==> r.conflictType == (if myType == "controller" then "Prop" else "Controller")
  {
    if accountNumber == "" then NoConflict
    else ConflictIn(t.keys, t.entries, userId, accountNumber, myType, current)
  }

  /** The keys of the registry whose entry has the given role. */
  function RoleKeys(t: EATable, role: string): set<string> {
    set k | k in t.entries && t.entries[k].role == role
  }

  /** Over distinct keys, a selection has one element per key that matches. */
  lemma {:induction false} SelectCount(keys: seq<string>, entries: map<string, EA>, matches: EA -> bool)
    requires Distinct(keys)
    ensures |Select(keys, entries, matches)| == |set k | k in keys && k in entries && matches(entries[k])|
  {
    if |keys| > 0 {
      var rest := keys[1..];
      DistinctTail(keys);
      SelectCount(rest, entries, matches);
      SelectedSplit(keys, entries, matches);
    }
  }

  lemma DistinctTail(keys: seq<string>)
    requires Distinct(keys) && |keys| > 0
    ensures Distinct(keys[1..]) && keys[0] !in keys[1..]
  {
    var rest := keys[1..];
    forall j | 0 <= j < |rest|
      ensures rest[j] != keys[0]
    {
      assert rest[j] == keys[j + 1];
    }
    forall i, j | 0 <= i < j < |rest|
      ensures rest[i] != rest[j]
    {
      assert rest[i] == keys[i + 1] && rest[j] == keys[j + 1];
    }
  }

  lemma SelectedSplit(keys: seq<string>, entries: map<string, EA>, matches: EA -> bool)
    requires |keys| > 0
    ensures (set k | k in keys && k in entries && matches(entries[k])) ==
              (set k | k in keys[1..] && k in entries && matches(entries[k])) +
              (if keys[0] in entries && matches(entries[keys[0]]) then {keys[0]} else {})
  {
    assert forall k :: k in keys <==> k == keys[0] || k in keys[1..];
  }

  /** `getEAsByType(...).length` is the number of registered entries with that role. */
  lemma GetEAsByTypeCount(t: EATable, role: string)
    requires ValidTable(t)
    ensures |GetEAsByType(t, role)| == |RoleKeys(t, role)|
  {
    var matches := (ea: EA) => ea.role == role;
    SelectCount(t.keys, t.entries, matches);
    var selected := set k | k in t.keys && k in t.entries && matches(t.entries[k]);
    assert forall k :: k in selected <==> k in RoleKeys(t, role);
    assert selected == RoleKeys(t, role);
  }

  // ---------------------------------------------------------------- entries

  /** The fields of `additionalData` the broker passes to `createEAData`. */
  datatype EAOverrides = EAOverrides(state: Option<string>, userValidated: Option<bool>)

  const NoOverrides: EAOverrides := EAOverrides(None, None)

  /** `createEAData`: a fresh entry that is neither connected nor validated, in state 'validating',
      enabled, with no errors and zero balances, last seen `now`; the overrides win. */
  function CreateEAData(userId: string, role: string, eaId: string, sock: Sock, now: int,
                        overrides: EAOverrides): (ea: EA)
    ensures ea.id == eaId && ea.userId == userId && ea.role == role && ea.socket == Some(sock)
    ensures !ea.connected && ea.enabled && !ea.blocked && ea.errors == [] && ea.lastSeen == now
    ensures ea.state == overrides.state.GetOr("validating")
    ensures ea.userValidated == overrides.userValidated.GetOr(false)
    ensures ea.balance == 0 && ea.equity == 0 && ea.accountNumber == ""
    ensures ea.tradesLive == Some(TradesLive([], []))
  {
    EA(eaId, userId, role,
       false, overrides.userValidated.GetOr(false), overrides.state.GetOr("validating"),
       0, 0, 0, 0,
       "", "",
       0, None, false, true,
       [], now, Some(sock), "",
       None, Some(TradesLive([], [])), None,
       "", 0)
  }

  /** The registry of the broker: the `controllers` map, changed in place by the handlers. */
  class Registry {
    var table: EATable

    predicate Valid()
      reads this
    {
      ValidTable(table)
    }

    constructor ()
      ensures Valid() && table == EmptyTable
    {
      table := EmptyTable;
    }

    /** `controllers.set(key, ea)`. */
    method Set(key: string, ea: EA)
      requires Valid()
      modifies this
      ensures Valid() && table == Put(old(table), key, ea)
    {
      table := Put(table, key, ea);
    }

    /** `deleteEAByKey`: whether the key was present; every other entry stays. */
    method DeleteEAByKey(key: string) returns (existed: bool)
      requires Valid()
      modifies this
      ensures Valid() && existed == (key in old(table).entries) && table == Remove(old(table), key)
    {
      existed := key in table.entries;
      table := Remove(table, key);
    }

    /** `deleteEABySocket`: removes the entry bound to `sock`, and only it; with none, nothing changes. */
    method DeleteEABySocket(sock: Sock) returns (deleted: bool, key: Option<string>)
      requires Valid()
      modifies this
      ensures Valid()
      ensures var found := FindEABySocket(old(table), sock);
        deleted == found.Some? &&
        (found.None? ==> key.None? && table == old(table)) &&
        (found.Some? ==> key == Some(found.value.key) && table == Remove(old(table), found.value.key))
    {
      var found := FindEABySocket(table, sock);
      if found.None? {
        return false, None;
      }
      table := Remove(table, found.value.key);
      deleted, key := true, Some(found.value.key);
    }
  }
}
