/**
 * The wire layer of the broker: length-prefixed framing of the TCP byte stream,
 * the HMAC envelope check, and the per-identifier sliding-window rate limiter.
 */
module Security {
  import opened Wrappers
  import opened Numeric

  // ---------------------------------------------------------------- framing

  /** Longest payload a frame may declare; a longer declaration ends the connection. */
  const MAX_FRAME_LEN: int := 10_000_000

  /** `buf.readUInt32BE(0)`: the declared payload length at the head of a buffer. */
  function ReadUInt32BE(buf: seq<byte>): (n: int)
    requires |buf| >= 4
    ensures 0 <= n < TWO_32
  {
    ValueBEBound(buf[..4], 256);
    ValueBE(buf[..4], 256)
  }

  /** One frame as the broker writes it: the payload length as 4 big-endian bytes, then the payload. */
  function EncodeFrame(payload: seq<byte>): (frame: seq<byte>)
    requires |payload| < TWO_32
    ensures |frame| == 4 + |payload|
  {
    var header: seq<byte> := DigitsBE(|payload|, 256, 4);
    header + payload
  }

  /** What splitting a buffer yields: the complete payloads in order, the bytes kept for the
      next chunk, and whether an oversized length made the reader destroy the socket. */
  datatype Split = Split(payloads: seq<seq<byte>>, rest: seq<byte>, destroyed: bool)

  /** The frames at the head of `buf`, as the `parseFrames` loop takes them off. */
  function SplitFrames(buf: seq<byte>): Split
    decreases |buf|
  {
    if |buf| < 4 then Split([], buf, false)
    else
      var len := ReadUInt32BE(buf);
      if len > MAX_FRAME_LEN then Split([], buf, true)
      else if |buf| < 4 + len then Split([], buf, false)
      else
        var s := SplitFrames(buf[4 + len..]);
        Split([buf[4..4 + len]] + s.payloads, s.rest, s.destroyed)
  }

  /** The messages handed on for a list of payloads: one per payload that parses, in order. */
  function ParsedMessages<M>(payloads: seq<seq<byte>>, parse: seq<byte> -> Option<M>): seq<M> {
    if |payloads| == 0 then []
    else
      var head := parse(payloads[0]);
      (if head.Some? then [head.value] else []) + ParsedMessages(payloads[1..], parse)
  }

  /** A sender's byte stream: frames written back to back. */
  function EncodeFrames(payloads: seq<seq<byte>>): seq<byte>
    requires forall i :: 0 <= i < |payloads| ==> |payloads[i]| <= MAX_FRAME_LEN
  {
    if |payloads| == 0 then [] else EncodeFrame(payloads[0]) + EncodeFrames(payloads[1..])
  }

  /** The header the encoder writes is read back as the payload length. */
  lemma EncodeFrameHeader(payload: seq<byte>, tail: seq<byte>)
    requires |payload| < TWO_32
    ensures var buf := EncodeFrame(payload) + tail;
      |buf| >= 4 && ReadUInt32BE(buf) == |payload| &&
      buf[4..4 + |payload|] == payload && buf[4 + |payload|..] == tail
  {
    var header: seq<byte> := DigitsBE(|payload|, 256, 4);
    var buf := header + payload + tail;
    assert EncodeFrame(payload) + tail == buf;
    assert buf[..4] == header;
    DigitsBEValue(|payload|, 256, 4);
    PowFour();
    DivModUnique(|payload|, TWO_32, 0, |payload|);
    assert ValueBE(header, 256) == |payload|;
    assert buf[4..4 + |payload|] == payload;
    assert buf[4 + |payload|..] == tail;
  }

  lemma PowFour()
    ensures Pow(256, 4) == TWO_32
  {
    assert Pow(256, 2) == 65536;
  }

  /** Decoding a stream of encoded frames gives back exactly the payloads, with nothing left over. */
  lemma {:induction false} FramesRoundTrip(payloads: seq<seq<byte>>)
    requires forall i :: 0 <= i < |payloads| ==> |payloads[i]| <= MAX_FRAME_LEN
    ensures SplitFrames(EncodeFrames(payloads)) == Split(payloads, [], false)
  {
    if |payloads| > 0 {
      var p := payloads[0];
      var tail := EncodeFrames(payloads[1..]);
      EncodeFrameHeader(p, tail);
      FramesRoundTrip(payloads[1..]);
      assert [p] + payloads[1..] == payloads;
    }
  }

  /** Splitting does not depend on where the stream was cut into chunks: reading `a` and then
      the kept tail followed by `b` yields what reading `a + b` at once yields. */
  lemma {:induction false} SplitAcrossChunks(a: seq<byte>, b: seq<byte>)
    requires !SplitFrames(a).destroyed
    ensures var first := SplitFrames(a);
      var second := SplitFrames(first.rest + b);
      SplitFrames(a + b) == Split(first.payloads + second.payloads, second.rest, second.destroyed)
    decreases |a|
  {
    var first := SplitFrames(a);
    if |a| < 4 {
      assert first == Split([], a, false);
    } else {
      var len := ReadUInt32BE(a);
      assert len <= MAX_FRAME_LEN;
      if |a| < 4 + len {
        assert first == Split([], a, false);
      } else {
        var ab := a + b;
        assert ab[..4] == a[..4];
        assert ReadUInt32BE(ab) == len;
        assert ab[4..4 + len] == a[4..4 + len];
        assert ab[4 + len..] == a[4 + len..] + b;
        var inner := SplitFrames(a[4 + len..]);
        assert first == Split([a[4..4 + len]] + inner.payloads, inner.rest, inner.destroyed);
        SplitAcrossChunks(a[4 + len..], b);
        var second := SplitFrames(inner.rest + b);
        var whole := SplitFrames(a[4 + len..] + b);
        assert whole.payloads == inner.payloads + second.payloads;
        assert SplitFrames(ab) == Split([a[4..4 + len]] + whole.payloads, whole.rest, whole.destroyed);
        ConcatAssoc([a[4..4 + len]], inner.payloads, second.payloads);
      }
    }
  }

  lemma ConcatAssoc<T>(x: seq<T>, y: seq<T>, z: seq<T>)
    ensures x + (y + z) == (x + y) + z
  {
  }

  /** A payload that does not parse is skipped and the payloads after it are still handed on. */
  lemma {:induction false} UnparsableSkipped<M>(before: seq<seq<byte>>, bad: seq<byte>, after: seq<seq<byte>>,
                                               parse: seq<byte> -> Option<M>)
    requires parse(bad).None?
    ensures ParsedMessages(before + [bad] + after, parse) == ParsedMessages(before, parse) + ParsedMessages(after, parse)
    decreases |before|
  {
    if |before| == 0 {
      assert before + [bad] + after == [bad] + after;
      assert ([bad] + after)[1..] == after;
    } else {
      var all := before + [bad] + after;
      var h := if parse(before[0]).Some? then [parse(before[0]).value] else [];
      assert all[0] == before[0] && all[1..] == before[1..] + [bad] + after;
      UnparsableSkipped(before[1..], bad, after, parse);
      assert ParsedMessages(all, parse) == h + ParsedMessages(all[1..], parse);
      assert ParsedMessages(before, parse) == h + ParsedMessages(before[1..], parse);
    }
  }

  /** The per-connection reader of `parseFrames`: the bytes received but not yet framed. */
  class FrameReader {
    var buf: seq<byte>

    constructor ()
      ensures buf == []
    {
      buf := [];
    }

    /** One 'data' event: append the chunk, then take complete frames off the front, handing on
        every payload that parses; a declared length over MAX_FRAME_LEN destroys the socket. */
    method OnData<M>(chunk: seq<byte>, parse: seq<byte> -> Option<M>) returns (msgs: seq<M>, destroyed: bool)
      modifies this
      ensures var s := SplitFrames(old(buf) + chunk);
        msgs == ParsedMessages(s.payloads, parse) && destroyed == s.destroyed && buf == s.rest
    {
      buf := buf + chunk;
      ghost var all := buf;
      ghost var done: seq<seq<byte>> := [];
      msgs, destroyed := [], false;
      while |buf| >= 4
        invariant SplitFrames(all) == Split(done + SplitFrames(buf).payloads, SplitFrames(buf).rest, SplitFrames(buf).destroyed)
        invariant msgs == ParsedMessages(done, parse)
        decreases |buf|
      {
        var len := ReadUInt32BE(buf);
        if len > MAX_FRAME_LEN {
          assert SplitFrames(buf) == Split([], buf, true);
          assert done + [] == done;
          destroyed := true;
          return;
        }
        if |buf| < 4 + len {
          assert SplitFrames(buf) == Split([], buf, false);
          assert done + [] == done;
          break;
        }
        var payload := buf[4..4 + len];
        ghost var inner := SplitFrames(buf[4 + len..]);
        assert SplitFrames(buf) == Split([payload] + inner.payloads, inner.rest, inner.destroyed);
        assert done + ([payload] + inner.payloads) == (done + [payload]) + inner.payloads;
        buf := buf[4 + len..];
        var msg := parse(payload);
        ParsedAppend(done, payload, parse);
        if msg.Some? {
          msgs := msgs + [msg.value];
        }
        done := done + [payload];
      }
      if |buf| < 4 {
        assert SplitFrames(buf) == Split([], buf, false);
        assert done + [] == done;
      }
    }
  }

  lemma {:induction false} ParsedAppend<M>(done: seq<seq<byte>>, p: seq<byte>, parse: seq<byte> -> Option<M>)
    ensures ParsedMessages(done + [p], parse) ==
            ParsedMessages(done, parse) + (if parse(p).Some? then [parse(p).value] else [])
    decreases |done|
  {
    if |done| == 0 {
      assert done + [p] == [p];
    } else {
      var all := done + [p];
      var h := if parse(done[0]).Some? then [parse(done[0]).value] else [];
      assert all[0] == done[0] && all[1..] == done[1..] + [p];
      ParsedAppend(done[1..], p, parse);
      assert ParsedMessages(all, parse) == h + ParsedMessages(all[1..], parse);
      assert ParsedMessages(done, parse) == h + ParsedMessages(done[1..], parse);
    }
  }

  // ---------------------------------------------------------------- HMAC envelope

  /** The authentication fields of an inbound message. A field that is absent and one that holds
      a falsy value ("" or 0) are treated alike by the broker, so both are written as that value. */
  datatype AuthFields = AuthFields(id: string, ts: int, nonce: int, sig: string)

  datatype AuthFailure = MissingFields | TimestampOutOfWindow(drift: int) | SignatureMismatch

  datatype AuthCheck = Accepted | Rejected(reason: AuthFailure)

  /** Default tolerance for clock drift between an EA and the broker, in milliseconds. */
  const TIMESTAMP_WINDOW: int := 60000

  function Abs(x: int): nat {
    if x < 0 then -x else x
  }

  predicate HasAuthFields(msg: AuthFields) {
    msg.id != "" && msg.ts != 0 && msg.nonce != 0 && msg.sig != ""
  }

  /** The signed text `id|ts|nonce`. */
  function SigningPayload(id: string, ts: int, nonce: int): string {
    id + "|" + IntToString(ts) + "|" + IntToString(nonce)
  }

  /** `computeHMAC`: the keyed digest (HMAC-SHA256, given as `hmac(key, text)`) of the signing payload. */
  function ComputeHMAC(id: string, ts: int, nonce: int, secret: string, hmac: (string, string) -> string): string {
    hmac(secret, SigningPayload(id, ts, nonce))
  }

  /** `verifyMessage`: no secret means no check; otherwise all four fields must be present, the
      timestamp within `window` of `now` in either direction, and the signature the expected one. */
  function VerifyMessage(msg: AuthFields, secret: string, window: int, now: int,
                         hmac: (string, string) -> string): (r: AuthCheck)
    ensures secret == "" ==> r == Accepted
    ensures secret != "" && !HasAuthFields(msg) ==> r == Rejected(MissingFields)
    ensures secret != "" && HasAuthFields(msg) && Abs(now - msg.ts) > window ==>
              r == Rejected(TimestampOutOfWindow(now - msg.ts))
    ensures r == Accepted <==>
              secret == "" ||
              (HasAuthFields(msg) && Abs(now - msg.ts) <= window &&
               msg.sig == ComputeHMAC(msg.id, msg.ts, msg.nonce, secret, hmac))
  {
    if secret == "" then Accepted
    else if !HasAuthFields(msg) then Rejected(MissingFields)
    else if Abs(now - msg.ts) > window then Rejected(TimestampOutOfWindow(now - msg.ts))
    else if msg.sig != ComputeHMAC(msg.id, msg.ts, msg.nonce, secret, hmac) then Rejected(SignatureMismatch)
    else Accepted
  }

  /** What a well-behaved EA sends: the fields with the signature computed under the shared secret. */
  function SignMessage(id: string, ts: int, nonce: int, secret: string, hmac: (string, string) -> string): AuthFields {
    AuthFields(id, ts, nonce, ComputeHMAC(id, ts, nonce, secret, hmac))
  }

  /** A correctly signed message is accepted whenever its drift is at most the window, the
      boundary included; any other signature is refused once a secret is configured. */
  lemma SignedAcceptedForgedRefused(id: string, ts: int, nonce: int, secret: string, forged: string,
                                    window: int, now: int, hmac: (string, string) -> string)
    requires id != "" && ts != 0 && nonce != 0 && secret != ""
    requires forged != ComputeHMAC(id, ts, nonce, secret, hmac)
    ensures Abs(now - ts) <= window && ComputeHMAC(id, ts, nonce, secret, hmac) != "" ==>
              VerifyMessage(SignMessage(id, ts, nonce, secret, hmac), secret, window, now, hmac) == Accepted
    ensures VerifyMessage(AuthFields(id, ts, nonce, forged), secret, window, now, hmac).Rejected?
  {
  }

  // ---------------------------------------------------------------- rate limiting

  /** The timestamps left after dropping, from the front, those older than `cutoff`. */
  function DropStale(ts: seq<int>, cutoff: int): (kept: seq<int>)
    ensures |kept| <= |ts| && kept == ts[|ts| - |kept|..]
    ensures forall i :: 0 <= i < |ts| - |kept| ==> ts[i] < cutoff
    ensures |kept| > 0 ==> kept[0] >= cutoff
    decreases |ts|
  {
    if |ts| > 0 && ts[0] < cutoff then DropStale(ts[1..], cutoff) else ts
  }

  predicate Ascending(ts: seq<int>) {
    forall i, j :: 0 <= i < j < |ts| ==> ts[i] <= ts[j]
  }

  /** With a clock that never runs backwards, the kept timestamps are exactly those inside the window. */
  lemma {:induction false} DropStaleWindow(ts: seq<int>, cutoff: int)
    requires Ascending(ts)
    ensures var kept := DropStale(ts, cutoff);
      Ascending(kept) && (forall i :: 0 <= i < |kept| ==> kept[i] >= cutoff) &&
      (forall i :: 0 <= i < |ts| ==> (ts[i] >= cutoff <==> i >= |ts| - |kept|))
  {
    var kept := DropStale(ts, cutoff);
    var k := |ts| - |kept|;
    if |kept| > 0 {
      forall i | 0 <= i < |kept| ensures kept[i] >= cutoff {
        assert kept[i] == ts[k + i] && ts[k] <= ts[k + i];
      }
    }
  }

  predicate HistoriesBounded(histories: map<string, seq<int>>, maxHz: int) {
    forall id :: id in histories ==> |histories[id]| <= maxHz
  }

  lemma BoundedUpdate(histories: map<string, seq<int>>, id: string, ts: seq<int>, maxHz: int)
    requires HistoriesBounded(histories, maxHz) && |ts| <= maxHz
    ensures HistoriesBounded(histories[id := ts], maxHz)
  {
  }

  /** The rate-limiter state: per identifier, the timestamps of its recently admitted messages. */
  class RateLimiter {
    var rateLimits: map<string, seq<int>>

    constructor ()
      ensures rateLimits == map[]
    {
      rateLimits := map[];
    }

    /** Every identifier's history holds at most `maxHz` timestamps. */
    predicate Bounded(maxHz: int)
      reads this
    {
      HistoriesBounded(rateLimits, maxHz)
    }

    /** `checkRateLimit`: drop stale timestamps from the front of `id`'s history, refuse without
        recording when `maxHz` remain, otherwise record `now` and admit. */
    method CheckRateLimit(id: string, maxHz: int, windowMs: int, now: int) returns (ok: bool)
      modifies this
      ensures var kept := DropStale(if id in old(rateLimits) then old(rateLimits)[id] else [], now - windowMs);
        ok == (|kept| < maxHz) &&
        rateLimits == old(rateLimits)[id := if ok then kept + [now] else kept]
      ensures ok ==> |rateLimits[id]| <= maxHz
      ensures old(Bounded(maxHz)) && maxHz >= 0 ==> Bounded(maxHz)
    {
      var timestamps := if id in rateLimits then rateLimits[id] else [];
      ghost var start := timestamps;
      while |timestamps| > 0 && timestamps[0] < now - windowMs
        invariant DropStale(timestamps, now - windowMs) == DropStale(start, now - windowMs)
        invariant |timestamps| <= |start|
        decreases |timestamps|
      {
        timestamps := timestamps[1..];
      }
      if |timestamps| >= maxHz {
        // the history was shifted in place, so the shortened list stays recorded
        if HistoriesBounded(rateLimits, maxHz) && maxHz >= 0 {
          assert |start| <= maxHz by {
            if id in rateLimits {
              assert start == rateLimits[id];
            }
          }
          BoundedUpdate(rateLimits, id, timestamps, maxHz);
        }
        rateLimits := rateLimits[id := timestamps];
        ok := false;
        return;
      }
      if HistoriesBounded(rateLimits, maxHz) {
        BoundedUpdate(rateLimits, id, timestamps + [now], maxHz);
      }
      rateLimits := rateLimits[id := timestamps + [now]];
      ok := true;
    }

    /** `clearRateLimit`: forget one identifier's history. */
    method ClearRateLimit(id: string)
      modifies this
      ensures rateLimits == old(rateLimits) - {id}
    {
      rateLimits := rateLimits - {id};
    }
  }
}
