/**
 * The request/response correlator: trade requests for prop EAs, and the table of requests
 * still waiting for an answer, which a response, a timeout or the periodic cleanup empties.
 */
module TradeRequests {
  import opened Wrappers
  import opened EAManager

  /** A request identifier. The broker draws 8 random bytes; here each id comes from a counter,
      which gives the uniqueness the random draw is relied on for. */
  type RequestId = nat

  /** Back-up time limit for an answer, and the age past which the cleanup drops a request. */
  const REQUEST_TIMEOUT: int := 5000

  const TRADE_REQUEST: string := "trade_request"

  datatype Subtype = OpenPos | OpenOrd | ExitPos | ExitOrd | ModifyPos | ModifyOrd

  /** The subtype as it travels on the wire. */
  function SubtypeName(s: Subtype): string {
    match s
    case OpenPos => "Request_Open.Pos"
    case OpenOrd => "Request_Open.Ord"
    case ExitPos => "Request_Exit.Pos"
    case ExitOrd => "Request_Exit.Ord"
    case ModifyPos => "Request_Modify.Pos"
    case ModifyOrd => "Request_Modify.Ord"
  }

  /** No two subtypes travel under the same wire name. */
  lemma SubtypeNameInjective(a: Subtype, b: Subtype)
    ensures SubtypeName(a) == SubtypeName(b) ==> a == b
  {
  }

  /** The `data` block of a request; prices and volumes are opaque integers, 0 meaning none or no change. */
  datatype RequestData =
    | OpenPosData(symbol: string, cmd: string, volume: int, sl: int, tp: int, comment: string)
    | OpenOrdData(symbol: string, cmd: string, volume: int, openPrice: int, sl: int, tp: int, comment: string)
    | ExitPosData(ticket: nat, volume: int)
    | ExitOrdData(ticket: nat)
    | ModifyPosData(ticket: nat, sl: int, tp: int)
    | ModifyOrdData(ticket: nat, openPrice: int, volume: int, sl: int, tp: int)

  /** A request as the broker writes it. `jitterSeconds` is absent on exit and modify requests. */
  datatype TradeRequest = TradeRequest(kind: string, subtype: Subtype, requestId: RequestId,
                                       controllerTicket: nat, jitterSeconds: Option<int>,
                                       data: RequestData, timestamp: int)

  /** The subtype whose data block has this shape. */
  function DataSubtype(d: RequestData): Subtype {
    match d
    case OpenPosData(_, _, _, _, _, _) => OpenPos
    case OpenOrdData(_, _, _, _, _, _, _) => OpenOrd
    case ExitPosData(_, _) => ExitPos
    case ExitOrdData(_) => ExitOrd
    case ModifyPosData(_, _, _) => ModifyPos
    case ModifyOrdData(_, _, _, _, _) => ModifyOrd
  }

  /** What every built request satisfies: type 'trade_request', a data block of its own subtype,
      jitter only on open requests, and on exit and modify requests a root `controllerTicket`
      equal to the ticket in the data block, which is how the prop EA finds its copy. */
  predicate WellFormed(r: TradeRequest) {
    r.kind == TRADE_REQUEST && DataSubtype(r.data) == r.subtype &&
    (r.jitterSeconds.Some? <==> r.subtype in {OpenPos, OpenOrd}) &&
    (!r.data.OpenPosData? && !r.data.OpenOrdData? ==> r.controllerTicket == r.data.ticket)
  }

  function BuildOpenPositionRequest(cmd: string, volume: int, sl: int, tp: int, comment: string,
                                    controllerTicket: nat, symbol: string, jitterSeconds: int,
                                    requestId: RequestId, now: int): (r: TradeRequest)
    ensures WellFormed(r) && r.subtype == OpenPos && r.requestId == requestId && r.timestamp == now
    ensures r.controllerTicket == controllerTicket && r.jitterSeconds == Some(jitterSeconds)
    ensures r.data == OpenPosData(symbol, cmd, volume, sl, tp, comment)
  {
    TradeRequest(TRADE_REQUEST, OpenPos, requestId, controllerTicket, Some(jitterSeconds),
                 OpenPosData(symbol, cmd, volume, sl, tp, comment), now)
  }

  function BuildOpenOrderRequest(cmd: string, volume: int, openPrice: int, sl: int, tp: int, comment: string,
                                 controllerTicket: nat, symbol: string, jitterSeconds: int,
                                 requestId: RequestId, now: int): (r: TradeRequest)
    ensures WellFormed(r) && r.subtype == OpenOrd && r.requestId == requestId && r.timestamp == now
    ensures r.controllerTicket == controllerTicket && r.jitterSeconds == Some(jitterSeconds)
    ensures r.data == OpenOrdData(symbol, cmd, volume, openPrice, sl, tp, comment)
  {
    TradeRequest(TRADE_REQUEST, OpenOrd, requestId, controllerTicket, Some(jitterSeconds),
                 OpenOrdData(symbol, cmd, volume, openPrice, sl, tp, comment), now)
  }

  function BuildExitPositionRequest(ticket: nat, volume: int, requestId: RequestId, now: int): (r: TradeRequest)
    ensures WellFormed(r) && r.subtype == ExitPos && r.requestId == requestId && r.timestamp == now
    ensures r.controllerTicket == ticket && r.data.volume == volume
  {
    TradeRequest(TRADE_REQUEST, ExitPos, requestId, ticket, None, ExitPosData(ticket, volume), now)
  }

  function BuildExitOrderRequest(ticket: nat, requestId: RequestId, now: int): (r: TradeRequest)
    ensures WellFormed(r) && r.subtype == ExitOrd && r.requestId == requestId && r.timestamp == now
    ensures r.controllerTicket == ticket
  {
    TradeRequest(TRADE_REQUEST, ExitOrd, requestId, ticket, None, ExitOrdData(ticket), now)
  }

  function BuildModifyPositionRequest(ticket: nat, sl: int, tp: int, requestId: RequestId, now: int): (r: TradeRequest)
    ensures WellFormed(r) && r.subtype == ModifyPos && r.requestId == requestId && r.timestamp == now
    ensures r.controllerTicket == ticket && r.data.sl == sl && r.data.tp == tp
  {
    TradeRequest(TRADE_REQUEST, ModifyPos, requestId, ticket, None, ModifyPosData(ticket, sl, tp), now)
  }

  function BuildModifyOrderRequest(ticket: nat, openPrice: int, volume: int, sl: int, tp: int,
                                   requestId: RequestId, now: int): (r: TradeRequest)
    ensures WellFormed(r) && r.subtype == ModifyOrd && r.requestId == requestId && r.timestamp == now
    ensures r.controllerTicket == ticket
    ensures r.data.openPrice == openPrice && r.data.volume == volume && r.data.sl == sl && r.data.tp == tp
  {
    TradeRequest(TRADE_REQUEST, ModifyOrd, requestId, ticket, None,
                 ModifyOrdData(ticket, openPrice, volume, sl, tp), now)
  }

  /** The time limit of a send: the custom one when given (0 stands for none), otherwise the
      jitter delay plus 5 s when there is jitter, otherwise REQUEST_TIMEOUT. */
  function TimeoutMs(customTimeout: int, jitterSeconds: Option<int>): (ms: int)
    ensures customTimeout != 0 ==> ms == customTimeout
    ensures customTimeout == 0 ==> ms >= REQUEST_TIMEOUT
    ensures customTimeout == 0 ==>
              (ms > REQUEST_TIMEOUT <==> jitterSeconds.GetOr(0) > 0) &&
              ms - REQUEST_TIMEOUT == (if jitterSeconds.GetOr(0) > 0 then jitterSeconds.GetOr(0) * 1000 else 0)
  {
    var jitterMs := jitterSeconds.GetOr(0) * 1000;
    if customTimeout != 0 then customTimeout
    else if jitterMs > 0 then jitterMs + 5000
    else REQUEST_TIMEOUT
  }

  /** What the broker does with the answer to a request: record it in the copy tracker, or only
      log it (the trade_action path). */
  datatype Callback =
    | TrackCopy(userId: string, controllerId: string, controllerTicket: nat, propId: string, requestId: RequestId)
    | LogAction(action: string, propId: string)

  /** The arguments a callback is invoked with; an absent ticket, error or code is 0 or "". */
  datatype Outcome = Outcome(success: bool, ticket: nat, error: string, errorCode: int)

  /** One invocation of a callback. */
  datatype Completion = Completion(callback: Callback, outcome: Outcome)

  datatype PendingRequest = PendingRequest(request: TradeRequest, timestamp: int, callback: Callback, propEaId: string)

  type PendingTable = map<RequestId, PendingRequest>

  /** A `trade_response` message; `requestId` is `None` when the field is missing or empty. */
  datatype Response = Response(requestId: Option<RequestId>, success: bool, ticket: nat, error: string, errorCode: int)

  const NOT_CONNECTED: Outcome := Outcome(false, 0, "Prop EA not connected", 0)
  const TIMED_OUT: Outcome := Outcome(false, 0, "Request timeout", -1)

  /** The table after an event, and the callback invocation the event causes, if any. */
  datatype Step = Step(table: PendingTable, completion: Option<Completion>)

  /** `handleTradeResponse` on the table: a response without a known id changes nothing and calls
      nothing; a known id leaves the table and its callback gets the response's fields. */
  function Respond(p: PendingTable, resp: Response): (s: Step)
    ensures s.completion.Some? <==> resp.requestId.Some? && resp.requestId.value in p
    ensures s.completion.None? ==> s.table == p
    ensures s.completion.Some? ==>
              s.table == p - {resp.requestId.value} &&
              s.completion.value.callback == p[resp.requestId.value].callback &&
              s.completion.value.outcome == Outcome(resp.success, resp.ticket, resp.error, resp.errorCode)
  {
    if resp.requestId.None? || resp.requestId.value !in p then Step(p, None)
    else
      var id := resp.requestId.value;
      Step(p - {id}, Some(Completion(p[id].callback, Outcome(resp.success, resp.ticket, resp.error, resp.errorCode))))
  }

  /** The timer of a request firing: only a request still waiting is removed and failed with
      'Request timeout', code -1. */
  function Timeout(p: PendingTable, id: RequestId): (s: Step)
    ensures s.completion.Some? <==> id in p
    ensures s.table == p - {id}
    ensures s.completion.Some? ==> s.completion.value == Completion(p[id].callback, TIMED_OUT)
  {
    if id in p then Step(p - {id}, Some(Completion(p[id].callback, TIMED_OUT))) else Step(p, None)
  }

  /** A request is completed at most once: once a response has completed it, its timer finds
      nothing, and once its timer has fired, a late response finds nothing; a second response
      likewise finds nothing. */
  lemma AtMostOnce(p: PendingTable, resp: Response)
    requires resp.requestId.Some? && resp.requestId.value in p
    ensures var id := resp.requestId.value;
      Respond(p, resp).completion.Some? &&
      Timeout(Respond(p, resp).table, id).completion.None? &&
      Respond(Respond(p, resp).table, resp).completion.None? &&
      Timeout(p, id).completion.Some? &&
      Respond(Timeout(p, id).table, resp).completion.None?
  {
  }

  /** The waiting count moves one request at a time: registering a new request adds one, and an
      answer or a timer that completes a request removes one; an event that completes nothing
      leaves the count alone. */
  lemma PendingCountBalance(p: PendingTable, resp: Response, id: RequestId, entry: PendingRequest)
    ensures |Respond(p, resp).table| == |p| - (if Respond(p, resp).completion.Some? then 1 else 0)
    ensures |Timeout(p, id).table| == |p| - (if Timeout(p, id).completion.Some? then 1 else 0)
    ensures id !in p ==> |p[id := entry]| == |p| + 1
  {
  }

  /** The requests the cleanup keeps: those at most REQUEST_TIMEOUT old. */
  function KeepRecent(p: PendingTable, now: int): (q: PendingTable)
    ensures forall id :: id in q <==> id in p && now - p[id].timestamp <= REQUEST_TIMEOUT
    ensures forall id :: id in q ==> q[id] == p[id]
  {
    map id | id in p && now - p[id].timestamp <= REQUEST_TIMEOUT :: p[id]
  }

  /** Cleaning twice at the same instant is cleaning once, and a request sent at `now` survives. */
  lemma KeepRecentIdempotent(p: PendingTable, now: int, id: RequestId)
    ensures KeepRecent(KeepRecent(p, now), now) == KeepRecent(p, now)
    ensures id in p && p[id].timestamp == now ==> id in KeepRecent(p, now)
  {
  }

  /** Some id of the list is still waiting; false for an empty (or missing) list. */
  predicate AnyPending(p: PendingTable, ids: seq<RequestId>) {
    exists i :: 0 <= i < |ids| && ids[i] in p
  }

  /** One row of `getPendingRequestsForEA`. */
  datatype PendingInfo = PendingInfo(requestId: RequestId, subtype: Subtype, timestamp: int, age: int)

  /** The correlator state: the module-level `pendingRequests` map, and the source of fresh ids.
      `issued` and `completed` are bookkeeping for the proof: the ids ever handed out, and those
      whose callback has been invoked. */
  class RequestManager {
    var pending: PendingTable
    var nextId: nat
    ghost var issued: set<RequestId>
    ghost var completed: set<RequestId>

    /** Only issued ids wait; an id that was completed never waits again; every issued id is
        below the counter. */
    ghost predicate Valid()
      reads this
    {
      (forall id :: id in pending ==> id in issued) &&
      (forall id :: id in completed ==> id in issued && id !in pending) &&
      (forall id :: id in issued ==> id < nextId)
    }

    constructor ()
      ensures Valid() && pending == map[] && nextId == 0 && issued == {} && completed == {}
    {
      pending, nextId := map[], 0;
      issued, completed := {}, {};
    }

    /** `generateRequestId`: an id no request has carried before. */
    method GenerateRequestId() returns (id: RequestId)
      requires Valid()
      modifies this
      ensures Valid()
      ensures id == old(nextId) && nextId == old(nextId) + 1 && id !in issued && id !in pending
      ensures issued == old(issued) && completed == old(completed) && pending == old(pending)
    {
      id := nextId;
      nextId := nextId + 1;
    }

    /** `sendTradeRequest`. Without a prop or socket the callback is invoked at once with
        'Prop EA not connected', nothing is registered and the result is false. Otherwise the
        request waits under its id, and the result says to write it and arm a timer of
        `timeoutMs`. `customTimeout` is 0 when the caller gives none. */
    method SendTradeRequest(prop: Option<EA>, request: TradeRequest, callback: Callback, customTimeout: int,
                            now: int) returns (sent: bool, completion: Option<Completion>, timeoutMs: int)
      requires Valid() && request.requestId !in issued && request.requestId < nextId
      modifies this
      ensures Valid() && nextId == old(nextId)
      ensures sent <==> prop.Some? && prop.value.socket.Some?
      ensures !sent ==> pending == old(pending) && completion == Some(Completion(callback, NOT_CONNECTED)) &&
                        completed == old(completed) + {request.requestId}
      ensures sent ==> pending == old(pending)[request.requestId := PendingRequest(request, now, callback, prop.value.id)] &&
                       completion.None? && completed == old(completed) &&
                       timeoutMs == TimeoutMs(customTimeout, request.jitterSeconds)
      ensures issued == old(issued) + {request.requestId}
    {
      if prop.None? || prop.value.socket.None? {
        issued := issued + {request.requestId};
        completed := completed + {request.requestId};
        return false, Some(Completion(callback, NOT_CONNECTED)), 0;
      }
      timeoutMs := TimeoutMs(customTimeout, request.jitterSeconds);
      pending := pending[request.requestId := PendingRequest(request, now, callback, prop.value.id)];
      issued := issued + {request.requestId};
      sent, completion := true, None;
    }

    /** `handleTradeResponse`: the table and callback invocation given by `Respond`; an invocation
        happens only for an id not completed before. */
    method HandleTradeResponse(resp: Response) returns (completion: Option<Completion>)
      requires Valid()
      modifies this
      ensures Valid() && nextId == old(nextId) && issued == old(issued)
      ensures Step(pending, completion) == Respond(old(pending), resp)
      ensures completion.Some? ==> resp.requestId.value !in old(completed) &&
                                   completed == old(completed) + {resp.requestId.value}
      ensures completion.None? ==> completed == old(completed)
    {
      if resp.requestId.None? || resp.requestId.value !in pending {
        return None;
      }
      var id := resp.requestId.value;
      var entry := pending[id];
      pending := pending - {id};
      completed := completed + {id};
      completion := Some(Completion(entry.callback, Outcome(resp.success, resp.ticket, resp.error, resp.errorCode)));
    }

    /** The timer armed by a send firing: the table and invocation given by `Timeout`. */
    method FireTimeout(id: RequestId) returns (completion: Option<Completion>)
      requires Valid()
      modifies this
      ensures Valid() && nextId == old(nextId) && issued == old(issued)
      ensures Step(pending, completion) == Timeout(old(pending), id)
      ensures completion.Some? ==> id !in old(completed) && completed == old(completed) + {id}
      ensures completion.None? ==> completed == old(completed)
    {
      if id in pending {
        var entry := pending[id];
        pending := pending - {id};
        completed := completed + {id};
        completion := Some(Completion(entry.callback, TIMED_OUT));
      } else {
        completion := None;
      }
    }

    /** `getPendingRequestsCount`: how many requests wait for an answer. */
    method GetPendingRequestsCount() returns (n: nat)
      ensures n == |pending|
    {
      n := |pending|;
    }

    /** `hasAnyPendingRequest`: whether some id of the list still waits. */
    method HasAnyPendingRequest(ids: seq<RequestId>) returns (found: bool)
      ensures found == AnyPending(pending, ids)
    {
      if |ids| == 0 {
        return false;
      }
      var i := 0;
      while i < |ids|
        invariant 0 <= i <= |ids|
        invariant forall j :: 0 <= j < i ==> ids[j] !in pending
      {
        if ids[i] in pending {
          return true;
        }
        i := i + 1;
      }
      return false;
    }

    /** `getPendingRequestsForEA`: one row per waiting request addressed to this prop, with its age. */
    method GetPendingRequestsForEA(propEaId: string, now: int) returns (rows: seq<PendingInfo>)
      ensures forall i :: 0 <= i < |rows| ==>
                rows[i].requestId in pending && pending[rows[i].requestId].propEaId == propEaId &&
                rows[i] == PendingInfo(rows[i].requestId, pending[rows[i].requestId].request.subtype,
                                       pending[rows[i].requestId].timestamp,
                                       now - pending[rows[i].requestId].timestamp)
      ensures forall id :: id in pending && pending[id].propEaId == propEaId ==>
                exists i :: 0 <= i < |rows| && rows[i].requestId == id
      ensures forall i, j :: 0 <= i < j < |rows| ==> rows[i].requestId != rows[j].requestId
    {
      rows := [];
      var todo := pending.Keys;
      while todo != {}
        invariant todo <= pending.Keys
        invariant forall i :: 0 <= i < |rows| ==>
                    rows[i].requestId in pending && rows[i].requestId !in todo &&
                    pending[rows[i].requestId].propEaId == propEaId &&
                    rows[i] == PendingInfo(rows[i].requestId, pending[rows[i].requestId].request.subtype,
                                           pending[rows[i].requestId].timestamp,
                                           now - pending[rows[i].requestId].timestamp)
        invariant forall id :: id in pending && id !in todo && pending[id].propEaId == propEaId ==>
                    exists i :: 0 <= i < |rows| && rows[i].requestId == id
        invariant forall i, j :: 0 <= i < j < |rows| ==> rows[i].requestId != rows[j].requestId
        decreases todo
      {
        var id :| id in todo;
        var entry := pending[id];
        if entry.propEaId == propEaId {
          var before := rows;
          rows := rows + [PendingInfo(id, entry.request.subtype, entry.timestamp, now - entry.timestamp)];
          assert rows[|before|].requestId == id;
          assert forall i :: 0 <= i < |before| ==> rows[i] == before[i];
        }
        todo := todo - {id};
      }
    }

    /** `clearOldPendingRequests`: drops every request older than REQUEST_TIMEOUT, keeps the rest,
        and invokes no callback. */
    method ClearOldPendingRequests(now: int)
      requires Valid()
      modifies this
      ensures Valid() && pending == KeepRecent(old(pending), now)
      ensures nextId == old(nextId) && issued == old(issued) && completed == old(completed)
    {
      var todo := pending.Keys;
      ghost var start := pending;
      while todo != {}
        invariant todo <= start.Keys
        invariant Valid() && nextId == old(nextId) && issued == old(issued) && completed == old(completed)
        invariant forall id :: id in pending <==>
                    id in start && (id in todo || now - start[id].timestamp <= REQUEST_TIMEOUT)
        invariant forall id :: id in pending ==> pending[id] == start[id]
        decreases todo
      {
        var id :| id in todo;
        if now - pending[id].timestamp > REQUEST_TIMEOUT {
          pending := pending - {id};
        }
        todo := todo - {id};
      }
    }
  }
}
