# Copier broker: a verified model of the trade-copy core

The broker sits between MetaTrader expert advisors (EAs) and a dashboard. A *controller* EA
reports its open positions and pending orders. The broker copies each of them to every *prop*
EA of the same user and tracks the outcome of every copy. This project models that core in Dafny
and proves properties about it:

- **`EAManager`** (`ea_manager.dfy`): the session registry. This is an insertion-ordered map from
  `userId:role:eaId` to an EA entry, searched by socket, by EA id, by role or by user. The
  `Registry` class holds the map that the handlers update in place.
- **`Security`** (`security.dfy`): the wire layer.
  - Length-prefixed framing of the TCP stream (`FrameReader`).
  - The HMAC envelope check.
  - The per-identifier sliding-window rate limiter (`RateLimiter`).
- **`TradeRequests`** (`trade_request.dfy`): the request/response correlator.
  - The six request builders.
  - The table of requests waiting for an answer (`RequestManager`).
  - The three ways a request leaves that table: a response, its timer, the periodic cleanup.
- **`TradeCopy`** (`trade_copy.dfy`): copy tracking (`CopyTracker`).
  - For every user, controller trade and prop, the status of that copy.
  - The counters derived from those statuses.
  - The "already copied" decision that prevents duplicate copies.
  - The per-prop copy loops.
  - The statistics and the history listing for the dashboard.
- **`Handlers`** (`tcp_handlers.dfy`): the handlers of the messages an EA sends: `hello`,
  `status`, `error`, `deinit`, `tick`, `account_info`, `trades_live`, `trades_history`,
  `broker_time`, `trade_action`.
- **`Copier`** (`copy_service.dfy`): the copy service. Every 200 ms it polls each controller's
  live snapshot and copies every trade to the user's connected props.
- **`Server`** (`server.dfy`): the top-level wiring (`Broker`).
  - The authentication and rate-limit gate in front of the router.
  - The socket `end` and `error` events.
  - The 15-second offline watchdog.
  - The force-delete endpoint.
  - The admin-login lockout.
- **`Totp`** (`auth.dfy`): the one-time passwords of the second login factor.
  - Base32 decoding of the secret, which the source does group by group.
  - The 8-byte counter block.
  - Dynamic truncation and the six-digit code.
  - The verification window of one step either side.
- `Numeric` and `Wrappers` hold shared arithmetic (big-endian digit values, 32-bit wrap-around,
  decimal text) and the `Option`/`Result` types.

State the source changes in place is modelled as classes:

- the registry, the pending table, the tracking map and the rate-limit histories;
- the copy service's flags;
- the login records.

Each method is proved against a function of the old state. The properties are proved as lemmas
about those functions. Loops the source has are `while` loops with their invariants: the
watchdog, the base32 decoder, the counter buffer, the recount of the counters, the statistics,
the history listing, the trade-action forwarding and the rate-limit window.

## Model

| member | source | states |
|---|---|---|
| EAManager.MakeKey | src/managers/ea-manager.js:9-14 | A key exists exactly when all three parts are non-empty, and it is the three parts joined by two separators. |
| EAManager.SplitJoin | src/managers/ea-manager.js:20-30 | Splitting on ':' and joining again gives back the text, and no piece holds a ':'. |
| EAManager.ParseMakeKey | src/managers/ea-manager.js:9-30 | Parsing a made key gives back its three parts when none of them holds ':'. |
| EAManager.ParsedKeyShape | src/managers/ea-manager.js:20-30 | Conversely, every key that parses is three ':'-free parts joined by ':'. |
| EAManager.Put | src/managers/ea-manager.js:174-176 | `Map.set`: the table stays well formed, the entry is stored, a new key goes last and an existing key keeps its place. |
| EAManager.Remove | src/managers/ea-manager.js:174-176 | `Map.delete`: the key and only the key leaves; deleting an absent key changes nothing. |
| EAManager.FindEABySocket | src/managers/ea-manager.js:36-43 | The entry found is the first, in insertion order, bound to the socket: it is the stored entry of its key and no earlier key holds an entry bound to the socket. Nothing is found exactly when no entry is bound to it. |
| EAManager.FindEAByEaId | src/managers/ea-manager.js:47-57 | The entry found is the first, in insertion order, with that EA id, whatever its user and role: no earlier key holds an entry with that id. Nothing is found exactly when no entry has it. |
| EAManager.FindEA | src/managers/ea-manager.js:63-67 | A lookup by composite key: refused exactly when the key cannot be made, otherwise the stored entry if any. |
| EAManager.SelectWhere | src/managers/ea-manager.js:73-95 | The selection both lookups share: every entry listed is stored and matches, and every stored matching entry is listed. |
| EAManager.GetEAsByUser | src/managers/ea-manager.js:73-81 | Every entry listed is a stored entry of that user, and every stored entry of that user is listed. |
| EAManager.GetEAsByType | src/managers/ea-manager.js:87-95 | Every entry listed is a stored entry of that role, and every stored entry of that role is listed. |
| EAManager.SelectComplete | src/managers/ea-manager.js:73-95 | Every matching entry of the table appears in the selection. |
| EAManager.GetEAsByTypeCount | src/managers/ea-manager.js:87-95 | The list's length is the number of keys with that role, so no entry is listed twice. |
| EAManager.IsDuplicateEA | src/managers/ea-manager.js:101-130 | Refused exactly when the key cannot be made. Otherwise a duplicate exactly when an entry under the key is bound to another socket that is still alive. |
| EAManager.CheckAccountConflict | src/managers/ea-manager.js:136-155 | No conflict without an account number. Otherwise a conflict exactly when an EA on another socket of the same user and account number, online and validated, has the opposite role; the conflict names that role. |
| EAManager.CreateEAData | src/managers/ea-manager.js:181-208 | A new entry: bound to the socket, not yet connected, 'validating' and not validated unless overridden, enabled, no errors, zero figures, an empty live snapshot, last seen now. |
| EAManager.Registry.constructor | src/server.js:89 | The registry starts empty. |
| EAManager.Registry.Set | src/managers/ea-manager.js:174-176 | The table becomes `Put` of the old table. |
| EAManager.Registry.DeleteEAByKey | src/managers/ea-manager.js:174-176 | The table becomes `Remove` of the old table, and the answer says whether the key was there. |
| EAManager.Registry.DeleteEABySocket | src/managers/ea-manager.js:161-168 | The first entry bound to the socket is removed, and it is the one returned. With none, nothing changes. |
| Security.ReadUInt32BE | src/utils/security.js:109 | The declared length is a 32-bit unsigned number. |
| Security.EncodeFrame | src/utils/security.js:139-143 | A frame is the 4-byte length followed by the payload. |
| Security.EncodeFrameHeader | src/utils/security.js:139-143 | The header the writer puts in front is read back as the payload length. |
| Security.FramesRoundTrip | src/utils/security.js:103-124 | Splitting a stream of encoded frames gives back exactly the payloads, with nothing left over and the connection kept. |
| Security.SplitAcrossChunks | src/utils/security.js:103-124 | Splitting is independent of where the stream was cut into chunks. |
| Security.UnparsableSkipped | src/utils/security.js:116-121 | A payload that does not parse is skipped, and the payloads after it still reach the handler. |
| Security.FrameReader.OnData | src/utils/security.js:105-123 | After a chunk, the messages handed on, the bytes kept and whether the socket is destroyed (a declared length over 10 MB) are those of splitting the old buffer plus the chunk. |
| Security.VerifyMessage | src/utils/security.js:17-57 | No secret means no check. A missing field, a drift beyond the window and a signature mismatch are each refused with their reason. Acceptance holds exactly when all fields are present, the drift is within the window and the signature is the HMAC of `id\|ts\|nonce`. |
| Security.SignedAcceptedForgedRefused | src/utils/security.js:17-57 | A correctly signed message within the window is accepted, and any other signature is refused. |
| Security.DropStale | src/utils/security.js:75-77 | The kept timestamps are a suffix of the history, everything dropped is older than the cutoff, and the first kept one is not. |
| Security.DropStaleWindow | src/utils/security.js:75-77 | With a clock that never runs backwards, the kept timestamps are exactly those inside the window. |
| Security.BoundedUpdate | src/utils/security.js:65-88 | Storing a history of at most `maxHz` timestamps keeps every history bounded. |
| Security.RateLimiter.CheckRateLimit | src/utils/security.js:65-88 | Stale timestamps are dropped. The message is refused when `maxHz` remain, otherwise admitted with `now` appended. Every history stays bounded by `maxHz`. |
| Security.RateLimiter.ClearRateLimit | src/utils/security.js:94-96 | The identifier's history is forgotten, and nothing else changes. |
| TradeRequests.SubtypeNameInjective | src/managers/trade-request-manager.js:40-196 | Two subtypes with the same wire name are the same subtype, so the six names written by the builders are distinct. |
| TradeRequests.BuildOpenPositionRequest | src/managers/trade-request-manager.js:40-59 | A well-formed `Request_Open.Pos` under the given id and time, naming the controller ticket, with the jitter passed on. |
| TradeRequests.BuildOpenOrderRequest | src/managers/trade-request-manager.js:74-94 | A well-formed `Request_Open.Ord` with the open price, the given id and time, and the jitter passed on. |
| TradeRequests.BuildExitPositionRequest | src/managers/trade-request-manager.js:104-118 | A well-formed `Request_Exit.Pos` for the ticket and volume. |
| TradeRequests.BuildExitOrderRequest | src/managers/trade-request-manager.js:127-140 | A well-formed `Request_Exit.Ord` for the ticket. |
| TradeRequests.BuildModifyPositionRequest | src/managers/trade-request-manager.js:151-166 | A well-formed `Request_Modify.Pos` carrying the new stop loss and take profit. |
| TradeRequests.BuildModifyOrderRequest | src/managers/trade-request-manager.js:179-196 | A well-formed `Request_Modify.Ord` carrying the new price, volume, stop loss and take profit. |
| TradeRequests.TimeoutMs | src/managers/trade-request-manager.js:216-217 | A non-zero custom limit wins. Otherwise the limit is REQUEST_TIMEOUT plus the jitter in milliseconds, and exceeds REQUEST_TIMEOUT exactly when the jitter is positive. |
| TradeRequests.Respond | src/managers/trade-request-manager.js:273-307 | A response completes a request exactly when its id is present and waiting. The request then leaves the table and its callback gets the response's outcome. Any other response changes nothing. |
| TradeRequests.Timeout | src/managers/trade-request-manager.js:228-240 | A timer removes its request. Only a request still waiting is failed with "Request timeout". |
| TradeRequests.AtMostOnce | src/managers/trade-request-manager.js:228-289 | Once a response has completed a request, its timer and a repeated response find nothing and call nothing. |
| TradeRequests.PendingCountBalance | src/managers/trade-request-manager.js:220-231 | The waiting count grows by one per registered request and drops by one per completion. |
| TradeRequests.KeepRecent | src/managers/trade-request-manager.js:353-361 | The cleanup keeps exactly the requests at most REQUEST_TIMEOUT old, unchanged. |
| TradeRequests.KeepRecentIdempotent | src/managers/trade-request-manager.js:353-361 | Cleaning twice is cleaning once, and a request sent at `now` survives. |
| TradeRequests.RequestManager.constructor | src/managers/trade-request-manager.js:18 | No request waits. |
| TradeRequests.RequestManager.GenerateRequestId | src/managers/trade-request-manager.js:24-26 | The id is one no request has carried, and the table is unchanged. |
| TradeRequests.RequestManager.SendTradeRequest | src/managers/trade-request-manager.js:207-262 | Without a prop or socket the callback fails at once with "Prop EA not connected" and nothing waits. Otherwise the request waits under its id with its callback and prop, the frame is written, and the timer is armed with `TimeoutMs`. |
| TradeRequests.RequestManager.HandleTradeResponse | src/managers/trade-request-manager.js:273-307 | The table and callback are those of `Respond`, and a completed id was never completed before. |
| TradeRequests.RequestManager.FireTimeout | src/managers/trade-request-manager.js:228-240 | The table and callback are those of `Timeout`, and a completed id was never completed before. |
| TradeRequests.RequestManager.GetPendingRequestsCount | src/managers/trade-request-manager.js:312-314 | The number of waiting requests. |
| TradeRequests.RequestManager.HasAnyPendingRequest | src/managers/trade-request-manager.js:339-348 | True exactly when some id of the list still waits, so false for an empty list. |
| TradeRequests.RequestManager.GetPendingRequestsForEA | src/managers/trade-request-manager.js:319-332 | One row per waiting request addressed to the prop, each once, with its subtype, time and age. |
| TradeRequests.RequestManager.ClearOldPendingRequests | src/managers/trade-request-manager.js:353-361 | The table becomes `KeepRecent` of the old one. |
| TradeCopy.TradeKeyInjective | src/managers/trade-copy-manager.js:26 | Distinct controller trades have distinct keys `ctrlEA:ticket`. |
| TradeCopy.CountsPartition | src/managers/trade-copy-manager.js:78-89 | The success, failed and pending counts of an entry add up to its number of copies. |
| TradeCopy.CountIsTotal | src/managers/trade-copy-manager.js:78-89 | A count equals the total exactly when every copy has that status. |
| TradeCopy.EnsureEntry | src/managers/trade-copy-manager.js:20-46 | The user and the trade are present afterwards, and an existing entry is untouched. A missing entry is fresh: no copies, zero counters. |
| TradeCopy.GetOrCreate | src/managers/trade-copy-manager.js:20-46 | A second get-or-create finds what the first made, whatever the clock. |
| TradeCopy.FreshCounted | src/managers/trade-copy-manager.js:29-42 | A new entry's counters agree with its (empty) copies. |
| TradeCopy.AddRequestId | src/managers/trade-copy-manager.js:71-74 | A new id is appended, and an absent or already listed one is not, so the list never holds a duplicate. |
| TradeCopy.UpdateEntry | src/managers/trade-copy-manager.js:51-102 | The prop's copy takes the new status, ticket and error, and the time stamps become now. The counters agree with the copies afterwards. |
| TradeCopy.UpdateCopyInvariant | src/managers/trade-copy-manager.js:51-102 | `updateCopyStatus` keeps every entry under its own key, with counters agreeing with its copies and no duplicate request ids. |
| TradeCopy.UpdateCopyFrame | src/managers/trade-copy-manager.js:51-102 | Other users and other trades are untouched. |
| TradeCopy.UpdateCopyOthers | src/managers/trade-copy-manager.js:51-102 | Within the trade, only the addressed prop's copy changes, and it takes the new status. |
| TradeCopy.UpdateCopyElsewhere | src/managers/trade-copy-manager.js:51-102 | Every other copy, of another user, trade or prop, is unchanged. |
| TradeCopy.IsAlreadyCopied | src/managers/trade-copy-manager.js:108-165 | Skip exactly when the copy succeeded, or is pending with one of its request ids still waiting. A failed copy, an unknown trade and a pending copy whose requests are all gone are retried. |
| TradeCopy.DisplayMeaning | src/managers/trade-copy-manager.js:441-477 | In terms of the copies themselves: "Not Copied" when there is no entry or no copy, Success when all copies succeeded, Failed when all failed, pending when some wait, partial otherwise. |
| TradeCopy.JobRequest | src/managers/trade-copy-manager.js:220-252 | The open request of a copy is a well-formed position or order request (by the trade's kind) under the fresh id, naming the controller ticket, with jitter 0, so it times out after REQUEST_TIMEOUT. |
| TradeCopy.CopyToPropOutcome | src/managers/trade-copy-manager.js:236-265 | Per prop: an already-copied prop gets nothing and nothing changes. Any other prop gets a fresh id, its copy is marked pending under that id, and the request is sent or failed at once. |
| TradeCopy.CopyToPropConnected | src/managers/trade-copy-manager.js:236-265 | A prop that is not yet copied and has a socket gets exactly one request, which waits in the table. |
| TradeCopy.CopyToPropUnconnected | src/managers/trade-copy-manager.js:236-265 | A prop that is not yet copied and has no socket gets nothing, and its copy fails at once with "Prop EA not connected". |
| TradeCopy.AnnotateKeeps | src/managers/trade-copy-manager.js:229-233 | Labelling the entry with symbol, type and volume keeps the invariant, the table and the id source. |
| TradeCopy.CopyToPropKeeps | src/managers/trade-copy-manager.js:236-265 | A copy already done or waiting stays so whichever prop is served for whichever trade. |
| TradeCopy.CopyToPropCovers | src/managers/trade-copy-manager.js:236-265 | A prop with a socket, once served, has its copy done or waiting. |
| TradeCopy.CopyToPropsKeeps | src/managers/trade-copy-manager.js:236-265 | The per-prop loop keeps the invariant and every copy already done or waiting. |
| TradeCopy.CopyToPropsCovers | src/managers/trade-copy-manager.js:236-265 | After the loop, every prop with a socket has its copy done or waiting. |
| TradeCopy.CopyToPropsSkipsAll | src/managers/trade-copy-manager.js:236-265 | When every prop is already copied, the loop sends nothing and changes nothing. |
| TradeCopy.CopyTradeTwice | src/managers/trade-copy-manager.js:215-328 | No duplicate copies: when every prop has a socket and no answer or timeout arrives in between, copying the same trade again sends nothing. |
| TradeCopy.Jobs | src/managers/trade-copy-manager.js:190-208 | The trades of a snapshot in copy order: every position, then every order. |
| TradeCopy.CopyTradeCovers | src/managers/trade-copy-manager.js:215-328 | Copying a trade keeps the invariant and leaves every prop with a socket copied or waiting. |
| TradeCopy.CopyJobsInvariant | src/managers/trade-copy-manager.js:193-205 | Copying a whole snapshot keeps the tracking invariant. |
| TradeCopy.CopyJobsKeeps | src/managers/trade-copy-manager.js:193-205 | Any copy already done or waiting stays so while a snapshot is copied. |
| TradeCopy.CopyJobsCovers | src/managers/trade-copy-manager.js:193-205 | After a snapshot, every trade of it is copied or waiting on every prop with a socket. |
| TradeCopy.CopyJobsSkipsAll | src/managers/trade-copy-manager.js:193-205 | A snapshot whose every copy is done or waiting sends nothing and changes nothing. |
| TradeCopy.SnapshotTwice | src/managers/trade-copy-manager.js:178-209 | No duplicates across polls: when every prop has a socket and no answer or timeout arrives in between, a second pass over the same snapshot sends nothing. |
| TradeCopy.UserProps | src/managers/trade-copy-manager.js:180-188 | Exactly the given EAs of the user, and only the connected ones when asked; never more than given. |
| TradeCopy.ClassMeaning | src/managers/trade-copy-manager.js:348-356 | With counters that agree with the copies: all-success, all-failed and no-copies mean what they say, and partial is everything else with copies. |
| TradeCopy.StatsAddUp | src/managers/trade-copy-manager.js:333-364 | The four classes of the statistics partition a user's trades. |
| TradeCopy.RecountCounters | src/managers/trade-copy-manager.js:78-89 | The loop's three counts are the numbers of successful, failed and pending copies. |
| TradeCopy.CountClasses | src/managers/trade-copy-manager.js:348-356 | The loop's three counts are the sizes of the all-success, all-failed and partial classes. |
| TradeCopy.RowsOfUser | src/managers/trade-copy-manager.js:410-428 | One row per copy of the user's trades, each once. |
| TradeCopy.SortByTimestamp | src/managers/trade-copy-manager.js:432 | The rows newest first, each once, the same rows as before. |
| TradeCopy.TradesOf | src/managers/trade-copy-manager.js:369-395 | Every tracked trade, each once. |
| TradeCopy.CopyTracker.constructor | src/managers/trade-copy-manager.js:14 | Nothing is tracked. |
| TradeCopy.CopyTracker.GetTrackingEntry | src/managers/trade-copy-manager.js:20-46 | The tracking becomes `EnsureEntry`, and the entry returned is the one stored. |
| TradeCopy.CopyTracker.UpdateCopyStatus | src/managers/trade-copy-manager.js:51-102 | The tracking becomes `UpdateCopy`, and the invariant is kept. |
| TradeCopy.CopyTracker.OnCompletion | src/managers/trade-copy-manager.js:258-264 | The copy callback records success with the prop's ticket, or failure with the error, under the request id. |
| TradeCopy.CopyTracker.CheckAlreadyCopied | src/managers/trade-copy-manager.js:108-165 | The answer is `IsAlreadyCopied` over the current table. |
| TradeCopy.CopyTracker.CopyToPropEAs | src/managers/trade-copy-manager.js:215-328 | The tracking, table, ids and requests sent are those of `CopyTrade`. |
| TradeCopy.CopyTracker.CopyPositionToPropEAs | src/managers/trade-copy-manager.js:215-266 | `CopyTrade` of the position's job. |
| TradeCopy.CopyTracker.CopyOrderToPropEAs | src/managers/trade-copy-manager.js:272-328 | `CopyTrade` of the order's job. |
| TradeCopy.CopyTracker.ProcessTradeCopying | src/managers/trade-copy-manager.js:178-209 | Nothing without props of the user. Otherwise every position, then every order, is copied to all of them. |
| TradeCopy.CopyTracker.CopySnapshot | src/managers/trade-copy-manager.js:193-205 | The two loops equal `CopyJobs` over `Jobs`. |
| TradeCopy.CopyTracker.GetTrackingStats | src/managers/trade-copy-manager.js:333-364 | The trade count and the sizes of the three classes; all zero for an unknown user. |
| TradeCopy.CopyTracker.GetTrackedTrades | src/managers/trade-copy-manager.js:369-395 | Every tracked trade of the user, each once; none for an unknown user. |
| TradeCopy.CopyTracker.GetAllTradeHistory | src/managers/trade-copy-manager.js:400-435 | Exactly one row per copy of the listed users (one user, or all when none is given), newest first. |
| Handlers.Reserve | src/handlers/tcp-message-handler.js:18-38 | The slot is bound to the socket before any check. A new key gets a fresh entry. An existing one is reconnected and loses its validation when the user id differs. No other entry changes. |
| Handlers.HelloNeverDuplicate | src/handlers/tcp-message-handler.js:18-101 | Because the slot was just rebound to this socket, `duplicate_ea` is never the reply. |
| Handlers.HelloAcceptedIff | src/handlers/tcp-message-handler.js:11-187 | A `hello` is accepted exactly when it names a user whose account exists and is active, no account conflict is found, and the settings lookup succeeds. |
| Handlers.HelloAcceptedEntry | src/handlers/tcp-message-handler.js:137-158 | An accepted EA is validated, online, connected, bound to the socket and carries the message's account number. |
| Handlers.HelloAnonymousEntry | src/handlers/tcp-message-handler.js:169-186 | Without a user id the EA stays registered, connected and bound to its socket, and only then. |
| Handlers.HelloRejectLeavesNoTrace | src/handlers/tcp-message-handler.js:56-168 | A refused `hello`, or one dropped by a failed lookup, from a new socket leaves the registry as it was, minus the key. |
| Handlers.HandleHello | src/handlers/tcp-message-handler.js:11-187 | The registry and reply are those of `Hello`. |
| Handlers.HandleStatus | src/handlers/tcp-message-handler.js:192-217 | The socket's entry takes state, socket and time, the figures present and the non-empty names. With no entry, nothing changes. |
| Handlers.PushError | src/handlers/tcp-message-handler.js:229-235 | The report goes last and the oldest go, so at most 50 are kept. |
| Handlers.HandleError | src/handlers/tcp-message-handler.js:222-239 | The report, with "N/A" and "Unknown error" for missing fields, is pushed, and every log stays capped at 50. |
| Handlers.CappedAfterPut | src/handlers/tcp-message-handler.js:229-235 | Storing an entry with a capped log keeps every log capped. |
| Handlers.HandleDeinit | src/handlers/tcp-message-handler.js:244-282 | Reasons 1, 3 and 5, or a removal by the dashboard, delete the entry. Any other reason marks it offline. Nothing happens for an unknown socket. |
| Handlers.HandleTick | src/handlers/tcp-message-handler.js:287-299 | The EA time is the tick's, or now when absent. |
| Handlers.HandleAccountInfo | src/handlers/tcp-message-handler.js:304-321 | The account block is replaced by the four figures. |
| Handlers.HandleTradesLive | src/handlers/tcp-message-handler.js:327-358 | The live snapshot is replaced whole, and nothing is copied here. |
| Handlers.HandleTradesHistory | src/handlers/tcp-message-handler.js:363-382 | The history snapshot is replaced. |
| Handlers.HandleBrokerTime | src/handlers/tcp-message-handler.js:400-413 | The broker time is stored. |
| Handlers.ActionSubtype | src/handlers/tcp-message-handler.js:462-488 | Exactly the four actions map to a subtype: close and remove become exits, and the modifications become modifications. |
| Handlers.ActionRequest | src/handlers/tcp-message-handler.js:462-488 | A well-formed request of that subtype naming the controller's ticket, without jitter. |
| Handlers.ActionForwardsShape | src/handlers/tcp-message-handler.js:440-499 | An unknown action forwards nothing. A known one forwards exactly one request to each prop with a socket, in order, under consecutive fresh ids, each timing out after REQUEST_TIMEOUT. |
| Handlers.Register | src/handlers/tcp-message-handler.js:490-499 | The table afterwards holds the old requests and those of the forwards. |
| Handlers.HandleTradeAction | src/handlers/tcp-message-handler.js:419-501 | Nothing unless every field is present and the socket belongs to a registered controller. Otherwise the forwards of `ActionForwards` to the user's connected props, each registered in the table. |
| Handlers.ForwardAll | src/handlers/tcp-message-handler.js:440-499 | The loop sends `ActionForwards` and registers each forward under its id. |
| Copier.PollControllerCovers | src/services/copy-service.js:67-115 | Polling a controller keeps the invariant and, when every connected prop has a socket, leaves it served: every trade of its snapshot done or waiting on every connected prop of its user. |
| Copier.PollControllersCovers | src/services/copy-service.js:67-115 | After a pass, every controller of it is served, when every connected prop has a socket. |
| Copier.PollControllersSkipAll | src/services/copy-service.js:67-115 | A pass over served controllers sends nothing and changes no verdict. |
| Copier.PollTwice | src/services/copy-service.js:52-121 | No duplicate copies across ticks: with the registry unchanged and no answer or timeout in between, the tick after a tick sends nothing, when every connected prop has a socket. |
| Copier.CopyService.constructor | src/services/copy-service.js:8-14 | Not running, no timer, counter 0. |
| Copier.CopyService.Start | src/services/copy-service.js:16-31 | Running afterwards. A second start arms no second timer. |
| Copier.CopyService.Stop | src/services/copy-service.js:33-47 | Stopped and the timer cleared. A second stop changes nothing. |
| Copier.CopyService.ProcessCopying | src/services/copy-service.js:52-121 | One tick: the counter advances, and the tracking, table and requests sent are those of `Poll`. |
| Copier.CopyService.GetStatus | src/services/copy-service.js:126-133 | The running flag, the 200 ms period and the numbers of controllers and props. |
| Server.RouteOf | src/server.js:155-191 | Every known message type has its handler, and an unknown type has none. |
| Server.RouteNameRoundTrip | src/server.js:155-191 | Every route is reached from exactly one type name. |
| Server.OnlyErrorAndBrokerTimeLimited | src/server.js:132-150 | Of the routed types, only `error` and `broker_time` are rate-limited. |
| Server.Watch | src/server.js:236-246 | The watchdog keeps every key in its place, and each entry is either marked offline or left as it was. |
| Server.WatchMarksOnlyStale | src/server.js:238-244 | An entry goes offline exactly when it was seen, has been silent more than 15 s and is not yet offline. |
| Server.WatchTwice | src/server.js:236-246 | A later watchdog run after an earlier one has the same result as the later run alone. |
| Server.WatchRegistry | src/server.js:236-246 | The loop leaves `Watch` of the old table and marks exactly the entries that turn offline. |
| Server.CeilSeconds | src/server.js:686-689 | The remaining block in whole seconds, rounded up. |
| Server.LoginAttempt | src/server.js:678-741 | An address is blocked exactly while its block lasts. Correct credentials outside a block succeed and forget the record. A failure is recorded at now. |
| Server.BurstCounts | src/server.js:730-739 | Failures in a burst count one each and block only at the fifth. |
| Server.Lockout | src/server.js:686-739 | Five failures in a burst block the address for 300000 ms after the last, even for correct credentials. |
| Server.QuietResets | src/server.js:692-694 | After 300000 ms of quiet, a failure counts as the first. |
| Server.RouteToRegistry | src/server.js:155-191 | Only `hello` and `deinit` change the set of keys, and a message from an unbound socket changes nothing. |
| Server.Broker.constructor | src/server.js:44-82 | An empty registry, pending table, rate-limit map, tracking and login records. |
| Server.Broker.OnMessage | src/server.js:121-192 | A message failing authentication destroys the socket and reaches nothing. A limited type over its rate is dropped. Otherwise its handler runs, `trade_actions_bulk` fails, and only the handlers concerned change the registry, the table and the tracking. |
| Server.Broker.Dispatch | src/server.js:155-191 | The routing switch, with the same frame of what each route may change. |
| Server.Broker.OnTradeResponse | src/handlers/tcp-message-handler.js:387-395 | `Respond` on the table, and its completion applied to the tracker. |
| Server.Broker.OnTimeout | src/managers/trade-request-manager.js:228-240 | `Timeout` on the table, and its completion applied to the tracker. |
| Server.Broker.OnSocketEnd | src/server.js:194-202 | The socket's entry, if any, becomes disconnected and offline. |
| Server.Broker.OnSocketError | src/server.js:204-214 | A reset changes nothing. Any other error leaves the entry disconnected in state 'error'. |
| Server.Broker.RunWatchdog | src/server.js:236-246 | The registry becomes `Watch` of the old one, and exactly the entries turning offline are broadcast. |
| Server.Broker.ForceDelete | src/server.js:457-496 | With a user id: the controller key, else the prop key. Without one: the first entry of that EA id. At most one key goes, and only an empty id is refused. |
| Server.Broker.AdminLogin | src/server.js:678-741 | The result and the new record of the address are those of `LoginAttempt`. |
| Totp.IndexOfSearches | src/components/auth.js:11 | `indexOf` finds the one alphabet position holding the character, and -1 means it is not in the alphabet. |
| Totp.BitStringValue | src/components/auth.js:13-14 | The bits of base32 values spell their base-32 value in binary. |
| Totp.OctetsValue | src/components/auth.js:15-18 | The octets read eight bits at a time spell, in base 256, the value of the bits. |
| Totp.ShiftIn | src/components/auth.js:13 | `bits = (bits << 5) \| val` keeps the pending low bits followed by the new five, despite the 32-bit wrap-around. |
| Totp.TakeOctet | src/components/auth.js:16 | `(bits >> (bitCount - 8)) & 0xFF` is the first eight pending bits. |
| Totp.DecodeGroupAt | src/components/auth.js:40-51 | One pass of the inner loop decodes the group of up to eight characters on its own. |
| Totp.DecodeBase32 | src/components/auth.js:38-52 | The decoder's loops produce `Base32Decode`: every group decoded on its own, the octets joined. |
| Totp.DecodeEncodedGroup | src/components/auth.js:38-52 | Five octets written as eight base32 characters (section 6 of RFC 4648) decode back to themselves. |
| Totp.CounterBlockBigEndian | src/components/auth.js:54-59 | Any counter below 2^31 is written as its 8-byte big-endian value. |
| Totp.CounterBuffer | src/components/auth.js:54-59 | The array filled backwards holds the counter block. |
| Totp.Offset | src/components/auth.js:64 | The offset is the low nibble of the last octet, and four octets fit after it. |
| Totp.TruncateIsDynamicTruncation | src/components/auth.js:65 | The code is the big-endian value of the four octets at the offset, top bit cleared (section 5.3 of RFC 4226). |
| Totp.OtpDigits | src/components/auth.js:66 | The password is six decimal digits reading back as the code modulo 10^6. |
| Totp.OtpSameIff | src/components/auth.js:66 | Two codes print the same exactly when they agree modulo 10^6. |
| Totp.TotpAtIsTruncatedDigest | src/components/auth.js:37-67 | A password spells the truncated HMAC-SHA1 digest of the counter block under the decoded key. |
| Totp.GenerateTotpAtTime | src/components/auth.js:37-67 | The password of the decoded secret at that counter. |
| Totp.GenerateTotp | src/components/auth.js:5-35 | The password of the current 30-second step. |
| Totp.VerifyTotp | src/components/auth.js:69-85 | True exactly when the token is the password of the current, previous or next step. |
| Totp.WindowIsOneStep | src/components/auth.js:69-85 | A password generated in one step is accepted in any step at most one away. |
| Numeric.ToInt32 | src/components/auth.js:13 | The 32-bit signed wrap-around of a shift, always in range. |
| Numeric.ToInt32InRange | src/components/auth.js:13 | A value already in range is unchanged. |
| Numeric.DigitsBEValue | src/components/auth.js:54-59 | Big-endian digits read back as the value modulo the base to the length. |
| Numeric.NatToStringValue | src/components/auth.js:66 | `String(n)` reads back as n. |
| Numeric.PadStart | src/components/auth.js:66 | `padStart` keeps the text at the end and fills with the pad character in front, up to the width. |

## Left out

- I/O and side channels are not modelled: socket writes, `destroy`, `setNoDelay`, the dashboard broadcast, logging and the periodic log counter's output. Methods return what would be written (the forwards, the marked keys, the replies) instead.
- The JSON parser is a parameter `parse` of the frame reader. The HMAC-SHA256 of the envelope and the HMAC-SHA1 of the one-time passwords are parameters `hmac`.
- The clock is a parameter `now`. `verifyTOTP` reads the clock three times, and the model reads it once. A step boundary crossed between the readings is not captured.
- Timers are explicit methods that the environment calls: the request timeout, the copy service's interval, the watchdog, the minute cleanup.
- Request ids: the broker draws 8 random bytes. Here they come from a counter, which stands for ids that never repeat.
- `async` interleaving is not modelled. The account, liveness and settings lookups of `hello` are parameters, and each handler runs to completion.
- Configuration overrides from environment variables and `admin_config.json` are not modelled. The built-in defaults are used: 2 messages per 1000 ms, a 15 s offline threshold, 5 login attempts and a 300000 ms block.
- The HTTP API is not modelled apart from force-delete and the admin-login lockout: sessions, the 2FA temporary session, dashboard pages and Mongo persistence (`loadEASettings` is a parameter).
- Prices, volumes and balances are opaque integers. Floating point is not modelled.
- The statistics and profit blocks of `trades_live` and `trades_history` are not kept.
- The `lastSkipLogAt` throttling of skip logs is not modelled, because it only decides whether to log.
- The exception handler of `processCopying` is not modelled. No modelled step throws.
- GetCopyStatusDisplay: its own contract only fixes the "Not Copied" text. The icon and the `x/y` text are display strings, and the meaning of each status is stated by `DisplayMeaning`.
- SendTradeRequest: the failure of `socket.write` is not modelled. In the source a throwing write deletes the pending entry, fails the callback with the error's message and returns false (src/managers/trade-request-manager.js:254-259). The model has no failing write, so a request to a prop with a socket always waits.
- GetPendingRequestsForEA, TradesOf and RowsOfUser list from sets, not from the insertion order of the source's `Map`s. The source lists pending requests, tracked trades and history rows in insertion order, and its stable sort keeps that order among rows of equal time. The model states which rows are listed and that they are newest first, not their order among equal times.
- DecodeBase32: JavaScript strings index UTF-16 code units, while a Dafny `string` indexes Unicode scalar values. For a secret holding a character outside the Basic Multilingual Plane, the source's groups of eight fall differently from the model's.
- `handleTradeResponseMessage` only delegates to `handleTradeResponse`, which `OnTradeResponse` models.

## Behaviour of the code as written

The model follows the code as written. These consequences of the code are proved as they stand:

- `hello` reserves the slot and binds it to the new socket (src/handlers/tcp-message-handler.js:26-38) before the duplicate test at line 80. That test then compares the socket with itself, so the `duplicate_ea` reply at line 92 is never sent (`HelloNeverDuplicate`).
- For a `hello` without a user id, the entry in state `unknown` (src/handlers/tcp-message-handler.js:170-176) is never created: the slot was reserved at lines 28-30 just before.
- `trade_action` forwards to the connected props of the `userId` named in the message (src/handlers/tcp-message-handler.js:420-441), not of the controller's stored user (`ActionProps`).
- `trade_actions_bulk` is exempt from the rate limit (src/server.js:140) and routed to `handleBulkTradeActionsMessage` (src/server.js:189-190), which the handler module does not export (src/handlers/tcp-message-handler.js:503-515). Those messages fail (`HandlerMissing` in `OnMessage`).
- The copy path calls the open builders without their last argument (src/managers/trade-copy-manager.js:251 and 309), so every copy carries the default jitter 0 (`JobRequest`).
- A new entry's live snapshot is `{}` (src/managers/ea-manager.js:204), which is truthy, so the skip at src/services/copy-service.js:75 never applies to a connected registered controller.
