/**
  The bootstrap RPC: request and reply layout, the client (`SRpc`) and the
  server event loop (`SRpcHandler`).

  A handler is a function of the server state, of an environment choice (random
  keys, device failures) and of the request parameter.
*/
module SRpcs {
  import opened Bytes
  import opened MultiMsgs

  const HEARTBEAT: byte := 0

  const STATUS_OK: byte := 0
  const STATUS_NOP: byte := 1
  const STATUS_FATAL: byte := 4

  const INVALID_CHECKSUM: nat := 0

  const RPC_HEADER_SZ: nat := 9
  const REPLY_HEADER_SZ: nat := 10

  // ---------------------------------------------------------------- layout

  datatype Request = Request(id: byte, checksum: u64, parameter: seq<byte>)

  datatype Reply = Reply(status: byte, checksum: u64, dummy: byte, payload: Option<seq<byte>>)

  function RpcHeaderBytes(id: byte, checksum: u64): (b: seq<byte>)
    ensures |b| == RPC_HEADER_SZ
  {
    [id] + LE(checksum, 8)
  }

  function ReplyHeaderBytes(r: Reply): (b: seq<byte>)
    ensures |b| == REPLY_HEADER_SZ
  {
    [r.status] + LE(r.checksum, 8) + [r.dummy]
  }

  function ReadU64(b: seq<byte>): (n: u64)
    requires |b| == 8
  {
    FromLEInRange(b);
    Ranges();
    FromLE(b)
  }

  lemma ReadU64OfLE(n: u64)
    ensures ReadU64(LE(n, 8)) == n
  {
    Ranges();
    FromLEOfLE(n, 8);
  }

  function RequestSegments(q: Request): (s: seq<seq<byte>>)
    ensures |s| == 2
  {
    [RpcHeaderBytes(q.id, q.checksum), q.parameter]
  }

  function ReplySegments(r: Reply): (s: seq<seq<byte>>)
    ensures |s| <= 2
  {
    [ReplyHeaderBytes(r)] + if r.payload.Some? then [r.payload.value] else []
  }

  function EncodeRequest(q: Request): (b: seq<byte>)
  {
    Encode(RequestSegments(q))
  }

  function EncodeReply(r: Reply): (b: seq<byte>)
  {
    Encode(ReplySegments(r))
  }

  lemma RequestLen(q: Request)
    ensures TotalLen(RequestSegments(q)) == RPC_HEADER_SZ + |q.parameter|
  {
    TotalLenSmall(RpcHeaderBytes(q.id, q.checksum), q.parameter);
  }

  lemma ReplyLen(r: Reply)
    ensures TotalLen(ReplySegments(r)) ==
      REPLY_HEADER_SZ + if r.payload.Some? then |r.payload.value| else 0
  {
    var h := ReplyHeaderBytes(r);
    TotalLenSmall(h, if r.payload.Some? then r.payload.value else []);
    assert ReplySegments(r) == if r.payload.Some? then [h, r.payload.value] else [h];
  }

  predicate RequestFits(q: Request) {
    HEADER_SZ + RPC_HEADER_SZ + |q.parameter| <= MAX_MSG_SZ
  }

  predicate ReplyFits(r: Reply) {
    HEADER_SZ + REPLY_HEADER_SZ + (if r.payload.Some? then |r.payload.value| else 0) <= MAX_MSG_SZ
  }

  // --------------------------------------------------------- client decision

  datatype RecvResult = Ok(payload: seq<byte>) | Err(what: string) | Timeout | Undefined

  datatype Decision = Retry | Return(result: RecvResult, checksum: u64)

  function NextChecksum(c: u64): u64 {
    (c + 1) % 0x1_0000_0000_0000_0000
  }

  datatype ParsedReply = BadReply | ReplyOutOfBounds | GoodReply(reply: Reply) | UnreadablePayload(head: Reply)

  /** Decode a receive buffer as a reply; the second segment is optional. */
  function ParseReply(b: seq<byte>): (p: ParsedReply)
    requires |b| == MAX_MSG_SZ
  {
    if !Decodable(b, MAX_MSG_SZ) then BadReply
    else match QueryOne(b, 0)
      case Absent => BadReply
      case OutOfBounds => ReplyOutOfBounds
      case Segment(s) =>
        if |s| < REPLY_HEADER_SZ then BadReply
        else
          var head := Reply(s[0], ReadU64(s[1..9]), s[9], None);
          match QueryOne(b, 1)
          case Absent => GoodReply(head)
          case OutOfBounds => UnreadablePayload(head)
          case Segment(p) => GoodReply(head.(payload := Some(p)))
  }

  /** What a buffer decodes to as a reply: a sane header, ten header bytes, and the second segment or none. */
  lemma ReplyIff(b: seq<byte>, r: Reply)
    requires |b| == MAX_MSG_SZ
    ensures ParseReply(b) == GoodReply(r) <==>
              && !Malformed(ReadHeader(b), |b|)
              && QueryOne(b, 1) == (if r.payload.Some? then Segment(r.payload.value) else Absent)
              && QueryOne(b, 0).Segment? && var h := QueryOne(b, 0).bytes;
                 |h| >= 10 && h[0] == r.status && FromLE(h[1..9]) == r.checksum && h[9] == r.dummy
  {
    MalformedIff(ReadHeader(b), |b|);
  }

  /** A reply that reaches the client's buffer is decoded as it was sent, whatever the buffer held. */
  lemma ReplyRoundTrip(r: Reply, before: seq<byte>)
    requires ReplyFits(r) && |before| == MAX_MSG_SZ
    ensures ParseReply(Overwrite(before, EncodeReply(r))) == GoodReply(r)
  {
    var segs := ReplySegments(r);
    ReplyLen(r);
    var b, tail := Overwrite(before, EncodeReply(r)), before[|EncodeReply(r)|..];
    DecodeEncode(segs, tail, MAX_MSG_SZ);
    assert QueryOne(b, 0) == Segment(ReplyHeaderBytes(r));
    assert QueryOne(b, 1) == if r.payload.Some? then Segment(r.payload.value) else Absent;
    assert ReplyHeaderBytes(r)[1..9] == LE(r.checksum, 8);
    ReadU64OfLE(r.checksum);
  }

  /** What the client does with a decoded reply. */
  function DecideReply(r: Reply, readable: bool, checksum: u64, heartbeat: bool): (d: Decision)
  {
    if r.dummy != 0 then
      if heartbeat then Return(Ok([]), checksum) else Retry
    else if r.checksum == checksum then
      Return(
        if r.status == STATUS_OK then
          if !readable then Undefined
          else if r.payload.None? then Err("decode reply error")
          else Ok(r.payload.value)
        else if r.status == STATUS_NOP then Err("Not ready")
        else Err("unknown error"),
        NextChecksum(checksum))
    else Return(Err("Fatal checksum error"), checksum)
  }

  /** The header of a decoded reply, readable payload or not. */
  function HeadOf(p: ParsedReply): (r: Option<Reply>)
  {
    match p
    case GoodReply(r) => Some(r)
    case UnreadablePayload(r) => Some(r)
    case _ => None
  }

  /** One pass of `receive_reply` over a filled receive buffer. */
  function DecideBuffer(b: seq<byte>, checksum: u64, heartbeat: bool): (d: Decision)
    requires |b| == MAX_MSG_SZ
  {
    match ParseReply(b)
    case BadReply => Return(Err("decode reply error"), checksum)
    case ReplyOutOfBounds => Return(Undefined, checksum)
    case UnreadablePayload(r) => DecideReply(r, false, checksum, heartbeat)
    case GoodReply(r) => DecideReply(r, true, checksum, heartbeat)
  }

  /** Delivering an encoded reply to the client is deciding on the reply itself. */
  lemma DecideEncoded(r: Reply, d: seq<byte>, checksum: u64, heartbeat: bool)
    requires ReplyFits(r) && d == EncodeReply(r)
    ensures DecideBuffer(Received(d), checksum, heartbeat) == DecideReply(r, true, checksum, heartbeat)
  {
    ReplyRoundTrip(r, Zeros(MAX_MSG_SZ));
  }

  /** The checksum advances only on a reply that carries it and is no heartbeat. */
  lemma ChecksumAdvance(b: seq<byte>, checksum: u64, heartbeat: bool)
    requires |b| == MAX_MSG_SZ
    ensures var d := DecideBuffer(b, checksum, heartbeat);
            d.Return? ==>
              && d.checksum in {checksum, NextChecksum(checksum)}
              && (d.checksum != checksum ==>
                    var p := ParseReply(b);
                    && (p.GoodReply? || p.UnreadablePayload?)
                    && var r := if p.GoodReply? then p.reply else p.head;
                       r.checksum == checksum && r.dummy == 0)
  {
  }

  /**
    What one pass does with a datagram.  A heartbeat reply is dropped outside
    heartbeat mode.  Every other reply that carries the current checksum moves it
    by one, whatever its status; nothing else moves it.
  */
  lemma DecisionIs(b: seq<byte>, checksum: u64, heartbeat: bool)
    requires |b| == MAX_MSG_SZ
    ensures var d, head := DecideBuffer(b, checksum, heartbeat), HeadOf(ParseReply(b));
            && (d.Retry? <==> !heartbeat && head.Some? && head.value.dummy != 0)
            && (d.Return? ==>
                  (d.checksum == (checksum + 1) % 0x1_0000_0000_0000_0000 <==>
                     head.Some? && head.value.dummy == 0 && head.value.checksum == checksum))
            && (d.Return? ==>
                  d.checksum == checksum || d.checksum == (checksum + 1) % 0x1_0000_0000_0000_0000)
  {
  }

  /** What a refused or failing reply is reported as. */
  lemma FailureIs(b: seq<byte>, checksum: u64, heartbeat: bool)
    requires |b| == MAX_MSG_SZ
    ensures var d, head := DecideBuffer(b, checksum, heartbeat), HeadOf(ParseReply(b));
            && (ParseReply(b).BadReply? ==> d == Return(Err("decode reply error"), checksum))
            && (head.Some? && head.value.dummy == 0 ==>
                  && d.Return?
                  && (head.value.checksum != checksum ==> d.result == Err("Fatal checksum error"))
                  && (head.value.checksum == checksum && head.value.status == 1 ==> d.result == Err("Not ready"))
                  && (head.value.checksum == checksum && head.value.status > 1 ==> d.result == Err("unknown error")))
  {
  }

  /**
    What Ok means outside heartbeat mode: the datagram is the Ok reply to a
    request under the current checksum, and the checksum moves past it.  A stale
    reply is never returned as Ok.
  */
  lemma OrdinaryOkIff(b: seq<byte>, c: u64, payload: seq<byte>, c': u64)
    requires |b| == MAX_MSG_SZ
    ensures DecideBuffer(b, c, false) == Return(Ok(payload), c') <==>
              OkAnswer(ParseReply(b), c, payload) && c' == (c + 1) % 0x1_0000_0000_0000_0000
  {
    var p := ParseReply(b);
    if p.GoodReply? {
      OrdinaryReply(p.reply, c, payload, c');
    }
  }

  lemma OrdinaryReply(r: Reply, c: u64, payload: seq<byte>, c': u64)
    ensures DecideReply(r, true, c, false) == Return(Ok(payload), c') <==>
              r == Reply(0, c, 0, Some(payload)) && c' == (c + 1) % 0x1_0000_0000_0000_0000
  {
  }

  // ------------------------------------------------------------------ client

  /** What one receive on the socket ends with. */
  datatype RecvEvent = Datagram(bytes: seq<byte>) | Failure | Expired

  datatype CallResult = Sent | TooLarge | SendFailed | Aborted

  function Received(d: seq<byte>): (b: seq<byte>)
    ensures |b| == MAX_MSG_SZ
  {
    Overwrite(Zeros(MAX_MSG_SZ), d)
  }

  /** `receive_reply` ends with `r` and checksum `c'` on this event. */
  ghost predicate EndsWith(e: RecvEvent, c: u64, heartbeat: bool, r: RecvResult, c': u64) {
    match e
    case Failure => r == Err("recv") && c' == c
    case Expired => r == Timeout && c' == c
    case Datagram(d) => DecideBuffer(Received(d), c, heartbeat) == Return(r, c')
  }

  /** The datagram answers a heartbeat request; the checksum plays no part. */
  predicate HeartbeatAnswer(p: ParsedReply) {
    (p.GoodReply? && p.reply.dummy != 0) || (p.UnreadablePayload? && p.head.dummy != 0)
  }

  /** The datagram is the Ok reply, with this payload, to a request sent under this checksum. */
  predicate OkAnswer(p: ParsedReply, checksum: u64, payload: seq<byte>) {
    p == GoodReply(Reply(STATUS_OK, checksum, 0, Some(payload)))
  }

  /**
    What Ok means in heartbeat mode: a heartbeat reply, with nothing else
    changed, or a late reply to an ordinary call, which is consumed -- its
    payload is returned and the checksum moves past it.
  */
  lemma HeartbeatOkIff(b: seq<byte>, c: u64, payload: seq<byte>, c': u64)
    requires |b| == MAX_MSG_SZ
    ensures DecideBuffer(b, c, true) == Return(Ok(payload), c') <==>
              || (HeartbeatAnswer(ParseReply(b)) && payload == [] && c' == c)
              || (OkAnswer(ParseReply(b), c, payload) && c' == NextChecksum(c))
  {
    var p := ParseReply(b);
    if p.GoodReply? {
      ReadyReply(p.reply, c, payload, c');
    }
  }

  /** The server is ready: it answered the heartbeat, or a late reply was consumed instead. */
  ghost predicate ReadyBy(e: RecvEvent, c: u64, payload: seq<byte>, c': u64) {
    && e.Datagram?
    && var p := ParseReply(Received(e.bytes));
       || (HeartbeatAnswer(p) && payload == [] && c' == c)
       || (OkAnswer(p, c, payload) && c' == NextChecksum(c))
  }

  lemma OkIsReady(e: RecvEvent, c: u64, payload: seq<byte>, c': u64)
    ensures EndsWith(e, c, true, Ok(payload), c') <==> ReadyBy(e, c, payload, c')
  {
    if e.Datagram? {
      HeartbeatOkIff(Received(e.bytes), c, payload, c');
    }
  }

  lemma ReadyReply(r: Reply, c: u64, payload: seq<byte>, c': u64)
    ensures DecideReply(r, true, c, true) == Return(Ok(payload), c') <==>
              || (r.dummy != 0 && payload == [] && c' == c)
              || (r == Reply(STATUS_OK, c, 0, Some(payload)) && c' == NextChecksum(c))
  {
  }

  lemma NoTimeoutFromDatagram(b: seq<byte>, c: u64, heartbeat: bool)
    requires |b| == MAX_MSG_SZ
    ensures var d := DecideBuffer(b, c, heartbeat); d.Return? ==> d.result != Timeout
  {
  }

  /** The elements before the first one that does not satisfy `p`. */
  function LeadingRun<T>(p: T -> bool, s: seq<T>): nat {
    if s == [] || !p(s[0]) then 0 else 1 + LeadingRun(p, s[1..])
  }

  /** All before `n` satisfy `p`, and there is none at `n` that does. */
  ghost predicate Breaks<T(!new)>(p: T -> bool, s: seq<T>, n: nat) {
    n <= |s| && (forall i: nat | i < n :: p(s[i])) && (n < |s| ==> !p(s[n]))
  }

  lemma {:induction false} LeadingRunIs<T(!new)>(p: T -> bool, s: seq<T>)
    ensures Breaks(p, s, LeadingRun(p, s))
  {
    if s != [] && p(s[0]) {
      LeadingRunIs(p, s[1..]);
      assert forall i: nat | 0 < i < |s| :: s[i] == s[1..][i - 1];
    }
  }

  lemma BreaksOnce<T(!new)>(p: T -> bool, s: seq<T>, m: nat, n: nat)
    requires Breaks(p, s, n)
    ensures m == n <==> Breaks(p, s, m)
  {
  }

  /** The receives that expire before anything else happens. */
  function LeadingExpired(inbox: seq<RecvEvent>): (n: nat)
    ensures n <= |inbox|
    ensures forall i: nat | i < n :: inbox[i].Expired?
    ensures n < |inbox| ==> !inbox[n].Expired?
  {
    LeadingRunIs((e: RecvEvent) => e.Expired?, inbox);
    LeadingRun((e: RecvEvent) => e.Expired?, inbox)
  }

  predicate IsHeartbeatReply(e: RecvEvent) {
    e.Datagram? && DecideBuffer(Received(e.bytes), 0, false).Retry?
  }

  lemma RetryIgnoresChecksum(b: seq<byte>, c1: u64, c2: u64)
    requires |b| == MAX_MSG_SZ
    ensures DecideBuffer(b, c1, false).Retry? <==> DecideBuffer(b, c2, false).Retry?
    ensures !DecideBuffer(b, c1, true).Retry?
  {
  }

  /** The length of the leading run of heartbeat replies. */
  function LeadingHeartbeats(inbox: seq<RecvEvent>): (n: nat)
    ensures n <= |inbox|
  {
    LeadingRunIs(IsHeartbeatReply, inbox);
    LeadingRun(IsHeartbeatReply, inbox)
  }

  /** It is the longest one, and the only number that says so. */
  lemma LeadingHeartbeatsMaximal(inbox: seq<RecvEvent>, n: nat)
    requires n <= |inbox|
    ensures n == LeadingHeartbeats(inbox) <==> Breaks(IsHeartbeatReply, inbox, n)
  {
    LeadingRunIs(IsHeartbeatReply, inbox);
    BreaksOnce(IsHeartbeatReply, inbox, n, LeadingHeartbeats(inbox));
  }

  /** A heartbeat reply is one that says so in its header. */
  lemma HeartbeatReplyIff(e: RecvEvent)
    ensures IsHeartbeatReply(e) <==> e.Datagram? && HeartbeatAnswer(ParseReply(Received(e.bytes)))
  {
    if e.Datagram? {
      DecisionIs(Received(e.bytes), 0, false);
    }
  }

  /** The first event that is no heartbeat reply is the Ok reply with this payload to a request under checksum `c`. */
  ghost predicate OkFrom(inbox: seq<RecvEvent>, c: u64, payload: seq<byte>) {
    var n := LeadingHeartbeats(inbox);
    n < |inbox| && inbox[n].Datagram? && OkAnswer(ParseReply(Received(inbox[n].bytes)), c, payload)
  }

  lemma OkFromIff(inbox: seq<RecvEvent>, c: u64, r: RecvResult, c': u64)
    requires var n := LeadingHeartbeats(inbox); n < |inbox| && EndsWith(inbox[n], c, false, r, c')
    ensures forall payload :: r == Ok(payload) <==> OkFrom(inbox, c, payload)
    ensures r.Ok? ==> c' == (c + 1) % 0x1_0000_0000_0000_0000
  {
    var e := inbox[LeadingHeartbeats(inbox)];
    if e.Datagram? {
      forall payload ensures r == Ok(payload) <==> OkFrom(inbox, c, payload) {
        OrdinaryOkIff(Received(e.bytes), c, payload, c');
        OrdinaryOkIff(Received(e.bytes), c, payload, (c + 1) % 0x1_0000_0000_0000_0000);
      }
    }
  }

  class SRpc {
    var checksum: u64
    var inbox: seq<RecvEvent>     // how the receives will end, in order; later ones expire
    var outbox: seq<seq<byte>>

    constructor (inbox: seq<RecvEvent>)
      ensures checksum == INVALID_CHECKSUM + 1 && this.inbox == inbox && outbox == []
    {
      checksum := INVALID_CHECKSUM + 1;
      this.inbox := inbox;
      outbox := [];
    }

    /**
      `call`.  The size test counts one byte for the header where nine are
      written, so parameters of 4055 to 4062 bytes pass it and then abort.
    */
    method Call(id: byte, parameter: seq<byte>, sendOk: bool) returns (r: CallResult)
      modifies `outbox
      ensures r == (if |parameter| <= 4054 then (if sendOk then Sent else SendFailed)
                    else if (1 + |parameter|) % 0x1_0000_0000 > 4063 then TooLarge
                    else Aborted)
      ensures outbox == old(outbox) + if r.Sent? then [EncodeRequest(Request(id, checksum, parameter))] else []
    {
      var o := MultiMsg.CreateExact((1 + |parameter|) % 0x1_0000_0000, MAX_MSG_SZ);
      if o.None? {
        return TooLarge;
      }
      var m := o.value;
      var segs := RequestSegments(Request(id, checksum, parameter));
      RequestLen(Request(id, checksum, parameter));
      var ok := m.Append(segs[0]);
      TotalLenSmall(segs[0], segs[1]);
      assert |m.buf| == HEADER_SZ + RPC_HEADER_SZ;
      ok := m.Append(segs[1]);
      if !ok {
        return Aborted;
      }
      assert m.msgs == segs;
      if !sendOk {
        return SendFailed;
      }
      outbox := outbox + [m.buf];
      return Sent;
    }

    /**
      `receive_reply`.  Outside heartbeat mode it drops exactly the leading run
      of heartbeat replies, leaves the checksum alone while doing so, and then
      decides on the first other event; an empty socket is a timeout.
    */
    method ReceiveReply(heartbeat: bool) returns (r: RecvResult)
      modifies `checksum, `inbox
      ensures var n := if heartbeat then 0 else LeadingHeartbeats(old(inbox));
              if n == |old(inbox)| then
                r == Timeout && inbox == [] && checksum == old(checksum)
              else
                inbox == old(inbox)[n + 1..] && EndsWith(old(inbox)[n], old(checksum), heartbeat, r, checksum)
      ensures !heartbeat ==>
                && (forall payload :: r == Ok(payload) <==> OkFrom(old(inbox), old(checksum), payload))
                && (r.Ok? ==> checksum == (old(checksum) + 1) % 0x1_0000_0000_0000_0000)
    {
      ghost var start, k := inbox, 0;
      while true
        invariant checksum == old(checksum)
        invariant k <= |start| && inbox == start[k..] && (heartbeat ==> k == 0)
        invariant forall i: nat | i < k :: IsHeartbeatReply(start[i])
        decreases |inbox|
      {
        if !heartbeat {
          LeadingHeartbeatsMaximal(start, k);
        }
        if inbox == [] {
          return Timeout;
        }
        var e := inbox[0];
        inbox := inbox[1..];
        var result := Pass(e, heartbeat);
        if result.Some? {
          if !heartbeat {
            OkFromIff(start, old(checksum), result.value, checksum);
          }
          return result.value;
        }
        k := k + 1;
      }
    }

    /**
      What follows one receive; `None` goes back to `retry`, which only a heartbeat
      reply outside heartbeat mode does.
    */
    method Pass(e: RecvEvent, heartbeat: bool) returns (r: Option<RecvResult>)
      modifies `checksum
      ensures if IsHeartbeatReply(e) && !heartbeat then r.None? && checksum == old(checksum)
              else r.Some? && EndsWith(e, old(checksum), heartbeat, r.value, checksum)
    {
      match e
      case Failure => return Some(Err("recv"));
      case Expired => return Some(Timeout);
      case Datagram(bytes) =>
        var d := DecideBuffer(Received(bytes), checksum, heartbeat);
        RetryIgnoresChecksum(Received(bytes), checksum, 0);
        if d.Retry? {
          return None;
        }
        checksum := d.checksum;
        return Some(d.result);
    }
  }

  // ------------------------------------------------------------------ server

  datatype HandlerResult = Returns(reply: seq<byte>) | Raises | Aborts

  type Handler<!S, !E> = (S, E, seq<byte>) -> (S, HandlerResult)

  datatype Served<S> = Replied(state: S, reply: Reply) | Crashed

  function OkReply(checksum: u64, id: byte, out: seq<byte>): (r: Reply)
    ensures |out| <= 4053 ==> ReplyFits(r)
  {
    Reply(STATUS_OK, checksum, if id == HEARTBEAT then 1 else 0,
          if |out| <= 4053 then Some(out) else None)
  }

  function NopReply(checksum: u64): Reply {
    Reply(STATUS_NOP, checksum, 0, None)
  }

  function FatalReply(): Reply {
    Reply(STATUS_FATAL, INVALID_CHECKSUM, 0, None)
  }

  /** `create_exact` for the reply, its argument truncated to 32 bits. */
  predicate ReplyReservable(out: seq<byte>) {
    (REPLY_HEADER_SZ + |out|) % 0x1_0000_0000 + HEADER_SZ <= MAX_MSG_SZ
  }

  /** The body of the event loop once the request header and parameter are decoded. */
  function ServeRequest<S, E>(handlers: map<byte, Handler<S, E>>, state: S, env: E, q: Request): (r: Served<S>)
  {
    if q.id !in handlers then Crashed
    else
      var (state', res) := handlers[q.id](state, env, q.parameter);
      match res
      case Aborts => Crashed
      case Raises => Replied(state', NopReply(q.checksum))
      case Returns(out) =>
        Replied(state', if ReplyReservable(out) then OkReply(q.checksum, q.id, out) else NopReply(q.checksum))
  }

  datatype ParsedRequest = BadHeader | NoParameter(checksum: u64) | RequestOutOfBounds | GoodRequest(request: Request)

  /** Decode a receive buffer as a request. */
  function ParseRequest(b: seq<byte>): (p: ParsedRequest)
    requires |b| == MAX_MSG_SZ
  {
    if !Decodable(b, MAX_MSG_SZ) then BadHeader
    else match QueryOne(b, 0)
      case Absent => BadHeader
      case OutOfBounds => RequestOutOfBounds
      case Segment(s) =>
        if |s| < RPC_HEADER_SZ then BadHeader
        else
          match QueryOne(b, 1)
          case Absent => NoParameter(ReadU64(s[1..9]))
          case OutOfBounds => RequestOutOfBounds
          case Segment(p) => GoodRequest(Request(s[0], ReadU64(s[1..9]), p))
  }

  /** A request is decoded as it was sent, whatever an earlier datagram left behind it in the buffer. */
  lemma RequestRoundTrip(q: Request, stale: seq<byte>)
    requires RequestFits(q) && |stale| == MAX_MSG_SZ
    ensures ParseRequest(Overwrite(stale, EncodeRequest(q))) == GoodRequest(q)
  {
    var segs := RequestSegments(q);
    RequestLen(q);
    DecodeEncode(segs, stale[|EncodeRequest(q)|..], MAX_MSG_SZ);
    ParsedFromSegments(Overwrite(stale, EncodeRequest(q)), q);
  }

  lemma ParsedFromSegments(b: seq<byte>, q: Request)
    requires |b| == MAX_MSG_SZ && Decodable(b, MAX_MSG_SZ)
    requires QueryOne(b, 0) == Segment(RpcHeaderBytes(q.id, q.checksum)) && QueryOne(b, 1) == Segment(q.parameter)
    ensures ParseRequest(b) == GoodRequest(q)
  {
    assert RpcHeaderBytes(q.id, q.checksum)[1..9] == LE(q.checksum, 8);
    ReadU64OfLE(q.checksum);
  }

  /** One iteration of the event loop on the receive buffer. */
  function Serve<S, E>(handlers: map<byte, Handler<S, E>>, state: S, env: E, b: seq<byte>): (r: Served<S>)
    requires |b| == MAX_MSG_SZ
    ensures r.Replied? ==> ReplyFits(r.reply)
  {
    match ParseRequest(b)
    case BadHeader => Replied(state, FatalReply())
    case RequestOutOfBounds => Crashed
    case NoParameter(checksum) => Replied(state, NopReply(checksum))
    case GoodRequest(q) => ServeRequest(handlers, state, env, q)
  }

  /** What a buffer decodes to as a request: a sane header, nine header bytes, and a second segment. */
  lemma RequestIff(b: seq<byte>, q: Request)
    requires |b| == MAX_MSG_SZ
    ensures ParseRequest(b) == GoodRequest(q) <==>
              && !Malformed(ReadHeader(b), |b|)
              && QueryOne(b, 1) == Segment(q.parameter)
              && QueryOne(b, 0).Segment? && var h := QueryOne(b, 0).bytes;
                 |h| >= 9 && h[0] == q.id && FromLE(h[1..9]) == q.checksum
  {
    MalformedIff(ReadHeader(b), |b|);
  }

  /**
    A buffer with a malformed header, without a segment or with a short first one
    is undecodable for both sides; the server answers it with status 4 and
    checksum 0, calls nothing and stays as it was.
  */
  lemma UndecodableServed<S, E>(handlers: map<byte, Handler<S, E>>, state: S, env: E, b: seq<byte>)
    requires |b| == MAX_MSG_SZ
    ensures Malformed(ReadHeader(b), |b|) ==> ParseRequest(b).BadHeader? && ParseReply(b).BadReply?
    ensures ParseRequest(b).BadHeader? <==>
              || Malformed(ReadHeader(b), |b|) || b[0] == 0
              || (QueryOne(b, 0).Segment? && |QueryOne(b, 0).bytes| < 9)
    ensures ParseRequest(b).BadHeader? ==> Serve(handlers, state, env, b) == Replied(state, Reply(4, 0, 0, None))
  {
    MalformedIff(ReadHeader(b), |b|);
  }

  /** The server reads outside the buffer exactly when one of the first two segments that it looks at lies there. */
  lemma RequestOutOfBoundsIff(b: seq<byte>)
    requires |b| == MAX_MSG_SZ
    ensures ParseRequest(b).RequestOutOfBounds? <==>
              && !Malformed(ReadHeader(b), |b|)
              && (QueryOne(b, 0).OutOfBounds?
                  || (QueryOne(b, 0).Segment? && |QueryOne(b, 0).bytes| >= 9 && QueryOne(b, 1).OutOfBounds?))
  {
    MalformedIff(ReadHeader(b), |b|);
  }

  /** A request without a parameter segment gets a Nop under its own checksum. */
  lemma NoParameterServed<S, E>(handlers: map<byte, Handler<S, E>>, state: S, env: E, b: seq<byte>)
    requires |b| == MAX_MSG_SZ && !Malformed(ReadHeader(b), |b|) && b[0] == 1
    requires QueryOne(b, 0).Segment? && |QueryOne(b, 0).bytes| >= 9
    ensures var c := FromLE(QueryOne(b, 0).bytes[1..9]);
            0 <= c < 0x1_0000_0000_0000_0000 && Serve(handlers, state, env, b) == Replied(state, Reply(1, c, 0, None))
  {
    MalformedIff(ReadHeader(b), |b|);
    FromLEInRange(QueryOne(b, 0).bytes[1..9]);
    Ranges();
  }

  datatype Packet = Packet(peer: nat, bytes: seq<byte>)

  datatype LoopState<S> = LoopState(state: S, buf: seq<byte>, replies: seq<Packet>, crashed: bool)

  /** One datagram: it overwrites the front of the reused buffer and is served. */
  function LoopStep<S, E>(handlers: map<byte, Handler<S, E>>, st: LoopState<S>, env: E, p: Packet): (r: LoopState<S>)
    requires |st.buf| == MAX_MSG_SZ
    ensures |r.buf| == MAX_MSG_SZ
  {
    if st.crashed then st
    else
      var b := Overwrite(st.buf, p.bytes);
      match Serve(handlers, st.state, env, b)
      case Crashed => st.(buf := b, crashed := true)
      case Replied(state, reply) =>
        LoopState(state, b, st.replies + [Packet(p.peer, EncodeReply(reply))], false)
  }

  ghost predicate Turned<S, E>(handlers: map<byte, Handler<S, E>>, states: seq<LoopState<S>>,
                               inbox: seq<Packet>, env: nat -> E, i: nat)
  {
    && i + 1 < |states| && i < |inbox|
    && |states[i].buf| == MAX_MSG_SZ && !states[i].crashed
    && states[i + 1] == LoopStep(handlers, states[i], env(i), inbox[i])
  }

  /** The states of one event loop over `inbox`: it ends behind the last datagram or at a crash. */
  ghost predicate IsLoop<S, E>(handlers: map<byte, Handler<S, E>>, states: seq<LoopState<S>>,
                               inbox: seq<Packet>, env: nat -> E) {
    && 1 <= |states| <= |inbox| + 1
    && states[0].replies == [] && !states[0].crashed
    && (forall i: nat | i + 1 < |states| :: Turned(handlers, states, inbox, env, i))
    && (|states| == |inbox| + 1 || states[|states| - 1].crashed)
  }

  lemma LoopStepReplies<S, E>(handlers: map<byte, Handler<S, E>>, st: LoopState<S>, env: E, p: Packet, r: LoopState<S>)
    returns (b: seq<byte>)
    requires |st.buf| == MAX_MSG_SZ && r == LoopStep(handlers, st, env, p) && !r.crashed
    ensures !st.crashed && r.replies == st.replies + [Packet(p.peer, b)] && |b| <= MAX_MSG_SZ
  {
    var served := Serve(handlers, st.state, env, Overwrite(st.buf, p.bytes));
    ReplyLen(served.reply);
    b := EncodeReply(served.reply);
  }

  /** `bytes` is the right answer to the receive buffer `b`, served in state `s` and left in state `s'`. */
  ghost predicate AnswersRight<S, E>(handlers: map<byte, Handler<S, E>>, s: S, env: E, b: seq<byte>, s': S,
                                     bytes: seq<byte>)
    requires |b| == MAX_MSG_SZ
  {
    var r := ParseReply(Received(bytes));
    && r.GoodReply?
    && match ParseRequest(b)
       case GoodRequest(q) =>
         && q.id in handlers
         && var (t, res) := handlers[q.id](s, env, q.parameter);
            s' == t && !res.Aborts? && Echoes(r.reply, q, res)
       case NoParameter(c) => s' == s && r.reply == Reply(1, c, 0, None)
       case BadHeader => s' == s && r.reply == Reply(4, 0, 0, None)
       case RequestOutOfBounds => false
  }

  lemma StepAnswersRight<S, E>(handlers: map<byte, Handler<S, E>>, st: LoopState<S>, env: E, p: Packet, r: LoopState<S>)
    requires |st.buf| == MAX_MSG_SZ && !st.crashed && r == LoopStep(handlers, st, env, p) && !r.crashed
    ensures |r.replies| == |st.replies| + 1 && st.replies <= r.replies && r.buf == Overwrite(st.buf, p.bytes)
    ensures AnswersRight(handlers, st.state, env, r.buf, r.state, r.replies[|st.replies|].bytes)
  {
    var served := Serve(handlers, st.state, env, r.buf);
    var q := ParseRequest(r.buf);
    ReplyRoundTrip(served.reply, Zeros(MAX_MSG_SZ));
    if q.GoodRequest? {
      RequestOutcome(handlers, st.state, env, q.request);
    }
  }

  /** Turn `i` of the loop sent the right answer. */
  ghost predicate TurnRight<S, E>(handlers: map<byte, Handler<S, E>>, states: seq<LoopState<S>>, env: nat -> E,
                                  i: nat, bytes: seq<byte>)
  {
    && i + 1 < |states| && |states[i + 1].buf| == MAX_MSG_SZ
    && AnswersRight(handlers, states[i].state, env(i), states[i + 1].buf, states[i + 1].state, bytes)
  }

  /** Over every event loop: each reply sent is the right answer to its datagram, over whatever was in the buffer. */
  lemma {:induction false} LoopAnswersRight<S, E>(
      handlers: map<byte, Handler<S, E>>, states: seq<LoopState<S>>, inbox: seq<Packet>, env: nat -> E, n: nat)
    requires IsLoop(handlers, states, inbox, env) && n < |states| && !states[n].crashed
    ensures RepliesRight(handlers, states, env, states[n].replies, n)
  {
    if n > 0 {
      var j := n - 1;
      TurnIsRight(handlers, states, inbox, env, j);
      LoopAnswersRight(handlers, states, inbox, env, j);
      RightExtends(handlers, states, env, states[j].replies, states[n].replies, j);
    }
  }

  ghost predicate RepliesRight<S, E>(handlers: map<byte, Handler<S, E>>, states: seq<LoopState<S>>, env: nat -> E,
                                     replies: seq<Packet>, n: nat)
  {
    |replies| == n && forall i: nat | i < n :: TurnRight(handlers, states, env, i, replies[i].bytes)
  }

  lemma TurnIsRight<S, E>(
      handlers: map<byte, Handler<S, E>>, states: seq<LoopState<S>>, inbox: seq<Packet>, env: nat -> E, j: nat)
    requires j + 1 < |states| && IsLoop(handlers, states, inbox, env) && !states[j + 1].crashed
    ensures !states[j].crashed && states[j].replies <= states[j + 1].replies
    ensures |states[j + 1].replies| == |states[j].replies| + 1
    ensures TurnRight(handlers, states, env, j, states[j + 1].replies[|states[j].replies|].bytes)
  {
    assert Turned(handlers, states, inbox, env, j);
    StepAnswersRight(handlers, states[j], env(j), inbox[j], states[j + 1]);
  }

  lemma RightExtends<S, E>(handlers: map<byte, Handler<S, E>>, states: seq<LoopState<S>>, env: nat -> E,
                           before: seq<Packet>, after: seq<Packet>, j: nat)
    requires RepliesRight(handlers, states, env, before, j)
    requires before <= after && |after| == j + 1 && TurnRight(handlers, states, env, j, after[j].bytes)
    ensures RepliesRight(handlers, states, env, after, j + 1)
  {
    forall i: nat | i < j + 1 ensures TurnRight(handlers, states, env, i, after[i].bytes) {
      if i < j {
        assert after[i] == before[i];
      }
    }
  }

  /** Replies answer the datagrams one by one, each to its sender and within one datagram. */
  ghost predicate AnswersEach(replies: seq<Packet>, inbox: seq<Packet>) {
    && |replies| == |inbox|
    && forall i: nat | i < |inbox| :: replies[i].peer == inbox[i].peer && |replies[i].bytes| <= MAX_MSG_SZ
  }

  lemma StepAnswers<S, E>(handlers: map<byte, Handler<S, E>>, st: LoopState<S>, env: E, p: Packet,
                          r: LoopState<S>, inbox: seq<Packet>)
    requires |st.buf| == MAX_MSG_SZ && r == LoopStep(handlers, st, env, p) && !r.crashed
    requires !st.crashed ==> AnswersEach(st.replies, inbox)
    ensures !st.crashed && AnswersEach(r.replies, inbox + [p])
  {
    var b := LoopStepReplies(handlers, st, env, p, r);
  }

  /** One reply per consumed datagram, in order, each to the sender of that datagram. */
  lemma {:induction false} OneReplyPerDatagram<S, E>(
      handlers: map<byte, Handler<S, E>>, states: seq<LoopState<S>>, inbox: seq<Packet>, env: nat -> E, i: nat)
    requires IsLoop(handlers, states, inbox, env) && i < |states| && !states[i].crashed
    ensures AnswersEach(states[i].replies, inbox[..i])
  {
    if i > 0 {
      var j := i - 1;
      if !states[j].crashed {
        OneReplyPerDatagram(handlers, states, inbox, env, j);
      }
      TurnAnswers(handlers, states, inbox, env, j);
    }
  }

  lemma TurnAnswers<S, E>(
      handlers: map<byte, Handler<S, E>>, states: seq<LoopState<S>>, inbox: seq<Packet>, env: nat -> E, j: nat)
    requires Turned(handlers, states, inbox, env, j) && !states[j + 1].crashed
    requires !states[j].crashed ==> AnswersEach(states[j].replies, inbox[..j])
    ensures AnswersEach(states[j + 1].replies, inbox[..j + 1])
  {
    StepAnswers(handlers, states[j], env(j), inbox[j], states[j + 1], inbox[..j]);
    assert inbox[..j + 1] == inbox[..j] + [inbox[j]];
  }

  /** What the code has no defined answer to: a slice outside the buffer, an unknown id, an aborting handler. */
  predicate Undefinable<S, E>(handlers: map<byte, Handler<S, E>>, state: S, env: E, b: seq<byte>)
    requires |b| == MAX_MSG_SZ
  {
    match ParseRequest(b)
    case RequestOutOfBounds => true
    case GoodRequest(q) => q.id !in handlers || handlers[q.id](state, env, q.parameter).1 == Aborts
    case _ => false
  }

  lemma StepCrashesIff<S, E>(handlers: map<byte, Handler<S, E>>, st: LoopState<S>, env: E, p: Packet)
    requires |st.buf| == MAX_MSG_SZ && !st.crashed
    ensures LoopStep(handlers, st, env, p).crashed <==> Undefinable(handlers, st.state, env, Overwrite(st.buf, p.bytes))
  {
  }

  /** Turn `i` of the loop meets nothing undefinable. */
  ghost predicate TurnDefined<S, E>(handlers: map<byte, Handler<S, E>>, states: seq<LoopState<S>>,
                                    inbox: seq<Packet>, env: nat -> E, i: nat)
    requires i < |states| && i < |inbox|
  {
    |states[i].buf| == MAX_MSG_SZ ==>
      !Undefinable(handlers, states[i].state, env(i), Overwrite(states[i].buf, inbox[i].bytes))
  }

  /**
    The event loop gets through its inbox, with one reply per datagram to its
    sender, if and only if no turn of it meets anything undefinable.
  */
  lemma LoopCompletesIff<S, E>(handlers: map<byte, Handler<S, E>>, states: seq<LoopState<S>>,
                               inbox: seq<Packet>, env: nat -> E)
    requires IsLoop(handlers, states, inbox, env)
    ensures (|states| == |inbox| + 1 && AnswersEach(states[|states| - 1].replies, inbox))
       <==> forall i: nat | i + 1 < |states| :: TurnDefined(handlers, states, inbox, env, i)
  {
    var n := |states| - 1;
    forall i: nat | i < n
      ensures TurnDefined(handlers, states, inbox, env, i) <==> !states[i + 1].crashed
    {
      assert Turned(handlers, states, inbox, env, i);
      StepCrashesIff(handlers, states[i], env(i), inbox[i]);
    }
    NoCrashBefore(handlers, states, inbox, env);
    if !states[n].crashed {
      OneReplyPerDatagram(handlers, states, inbox, env, n);
      assert inbox[..n] == inbox;
    } else {
      CrashedHasFewer(handlers, states, inbox, env);
      assert !TurnDefined(handlers, states, inbox, env, n - 1);
    }
  }

  /** Only the last state of a loop can be a crash. */
  lemma NoCrashBefore<S, E>(handlers: map<byte, Handler<S, E>>, states: seq<LoopState<S>>, inbox: seq<Packet>,
                            env: nat -> E)
    requires IsLoop(handlers, states, inbox, env)
    ensures forall i: nat | i + 1 < |states| :: !states[i].crashed
  {
    forall i: nat | i + 1 < |states| ensures !states[i].crashed {
      assert Turned(handlers, states, inbox, env, i);
    }
  }

  lemma CrashedHasFewer<S, E>(handlers: map<byte, Handler<S, E>>, states: seq<LoopState<S>>,
                              inbox: seq<Packet>, env: nat -> E)
    requires IsLoop(handlers, states, inbox, env) && states[|states| - 1].crashed
    ensures |states[|states| - 1].replies| < |inbox|
  {
    var n := |states| - 1;
    assert Turned(handlers, states, inbox, env, n - 1);
    OneReplyPerDatagram(handlers, states, inbox, env, n - 1);
    assert states[n].replies == states[n - 1].replies;
  }

  /**
    From the inbox alone: requests as clients send them, all for registered ids
    whose handlers never abort, are all answered, each to its sender.
  */
  lemma ClientRequestsAllServed<S(!new), E(!new)>(
      handlers: map<byte, Handler<S, E>>, states: seq<LoopState<S>>, inbox: seq<Packet>, env: nat -> E,
      requests: seq<Request>)
    requires IsLoop(handlers, states, inbox, env) && |requests| == |inbox|
    requires forall i: nat | i < |inbox| ::
               && RequestFits(requests[i]) && inbox[i].bytes == EncodeRequest(requests[i])
               && requests[i].id in handlers
    requires forall id, s, e, p | id in handlers :: handlers[id](s, e, p).1 != Aborts
    ensures |states| == |inbox| + 1
    ensures AnswersEach(states[|states| - 1].replies, inbox)
  {
    forall i: nat | i + 1 < |states| ensures TurnDefined(handlers, states, inbox, env, i) {
      if |states[i].buf| == MAX_MSG_SZ {
        RequestDefined(handlers, states[i].state, env(i), requests[i], states[i].buf, inbox[i].bytes);
      }
    }
    LoopCompletesIff(handlers, states, inbox, env);
  }

  /** Reply `bytes` to request `q`, whose handler went from `s` to `s'`. */
  ghost predicate RepliesTo<S, E>(handlers: map<byte, Handler<S, E>>, s: S, env: E, q: Request, s': S,
                                  bytes: seq<byte>) {
    && q.id in handlers && handlers[q.id](s, env, q.parameter).0 == s'
    && ParseReply(Received(bytes)).GoodReply?
    && Echoes(ParseReply(Received(bytes)).reply, q, handlers[q.id](s, env, q.parameter).1)
  }

  /** And the reply to each is what its own handler made of it, in the state that the earlier requests had left. */
  lemma ClientRequestsAnswered<S(!new), E(!new)>(
      handlers: map<byte, Handler<S, E>>, states: seq<LoopState<S>>, inbox: seq<Packet>, env: nat -> E,
      requests: seq<Request>)
    requires IsLoop(handlers, states, inbox, env) && |requests| == |inbox|
    requires forall i: nat | i < |inbox| ::
               && RequestFits(requests[i]) && inbox[i].bytes == EncodeRequest(requests[i])
               && requests[i].id in handlers
    requires forall id, s, e, p | id in handlers :: handlers[id](s, e, p).1 != Aborts
    ensures |states| == |inbox| + 1 && |states[|inbox|].replies| == |inbox|
    ensures forall i: nat | i < |inbox| ::
              RepliesTo(handlers, states[i].state, env(i), requests[i], states[i + 1].state,
              states[|inbox|].replies[i].bytes)
  {
    var n := |inbox|;
    ClientRequestsAllServed(handlers, states, inbox, env, requests);
    if states[n].crashed {
      CrashedHasFewer(handlers, states, inbox, env);
    }
    LoopAnswersRight(handlers, states, inbox, env, n);
    forall i: nat | i < n
      ensures RepliesTo(handlers, states[i].state, env(i), requests[i], states[i + 1].state, states[n].replies[i].bytes)
    {
      assert Turned(handlers, states, inbox, env, i);
      assert TurnRight(handlers, states, env, i, states[n].replies[i].bytes);
      TurnRepliesTo(handlers, states, inbox, env, i, requests[i], states[n].replies[i].bytes);
    }
  }

  lemma TurnRepliesTo<S, E>(handlers: map<byte, Handler<S, E>>, states: seq<LoopState<S>>, inbox: seq<Packet>,
                            env: nat -> E, i: nat, q: Request, bytes: seq<byte>)
    requires Turned(handlers, states, inbox, env, i) && TurnRight(handlers, states, env, i, bytes)
    requires RequestFits(q) && inbox[i].bytes == EncodeRequest(q)
    ensures RepliesTo(handlers, states[i].state, env(i), q, states[i + 1].state, bytes)
  {
    RequestRoundTrip(q, states[i].buf);
    assert states[i + 1].buf == Overwrite(states[i].buf, inbox[i].bytes);
  }

  lemma RequestDefined<S, E>(handlers: map<byte, Handler<S, E>>, state: S, env: E, q: Request,
                             stale: seq<byte>, bytes: seq<byte>)
    requires RequestFits(q) && |stale| == MAX_MSG_SZ && bytes == EncodeRequest(q)
    requires q.id in handlers && handlers[q.id](state, env, q.parameter).1 != Aborts
    ensures !Undefinable(handlers, state, env, Overwrite(stale, bytes))
  {
    RequestRoundTrip(q, stale);
  }

  /**
    A request delivered over stale bytes: the reply echoes its checksum and
    carries the handler's output exactly when the handler returns at most 4053
    bytes; a raise or a larger output becomes Nop.
  */
  lemma SentRequestOutcome<S, E>(handlers: map<byte, Handler<S, E>>, state: S, env: E, q: Request,
                                 stale: seq<byte>, bytes: seq<byte>)
    requires RequestFits(q) && |stale| == MAX_MSG_SZ && bytes == EncodeRequest(q)
    requires q.id in handlers && handlers[q.id](state, env, q.parameter).1 != Aborts
    ensures var (state', res) := handlers[q.id](state, env, q.parameter);
            var served := Serve(handlers, state, env, Overwrite(stale, bytes));
            served.Replied? && served.state == state' && Echoes(served.reply, q, res)
  {
    RequestRoundTrip(q, stale);
    RequestOutcome(handlers, state, env, q);
  }

  /**
    The reply `r` to `q`, whose handler ended in `res`: Ok with its output if that
    is at most 4053 bytes.  A raise and any larger output become Nop -- but for
    outputs whose size wraps the 32-bit reservation, which become an Ok without one.
  */
  ghost predicate Echoes(r: Reply, q: Request, res: HandlerResult) {
    var mark := if q.id == 0 then 1 else 0;
    && r.checksum == q.checksum
    && (res.Raises? ==> r == Reply(1, q.checksum, 0, None))
    && (res.Returns? && |res.reply| <= 4053 ==> r == Reply(0, q.checksum, mark, Some(res.reply)))
    && (res.Returns? && 4053 < |res.reply| < 0xFFFF_FFF6 ==> r == Reply(1, q.checksum, 0, None))
    && (res.Returns? && 0xFFFF_FFF6 <= |res.reply| ==> r.payload.None? && r.status <= 1)
  }

  lemma RequestOutcome<S, E>(handlers: map<byte, Handler<S, E>>, state: S, env: E, q: Request)
    requires q.id in handlers && handlers[q.id](state, env, q.parameter).1 != Aborts
    ensures var (state', res) := handlers[q.id](state, env, q.parameter);
            var served := ServeRequest(handlers, state, env, q);
            served.Replied? && served.state == state' && Echoes(served.reply, q, res)
  {
  }

  /** A heartbeat request is answered with a marked Ok reply that holds the character 1. */
  lemma HeartbeatServed<S, E>(handlers: map<byte, Handler<S, E>>, state: S, env: E, q: Request)
    requires q.id == 0 && q.id in handlers && handlers[q.id](state, env,
    q.parameter) == HeartbeatHandler(state, env, q.parameter)
    ensures ServeRequest(handlers, state, env, q) == Replied(state, Reply(0, q.checksum, 1, Some([49])))
  {
  }

  function HeartbeatHandler<S, E>(state: S, env: E, parameter: seq<byte>): (r: (S, HandlerResult))
  {
    (state, Returns(['1' as int]))
  }

  class SRpcHandler<S, E> {
    var handlers: map<byte, Handler<S, E>>
    var state: S
    var curMsg: seq<byte>
    var curMsgClient: Option<nat>
    var inbox: seq<Packet>
    var outbox: seq<Packet>

    constructor (state: S, inbox: seq<Packet>)
      ensures handlers == map[HEARTBEAT := HeartbeatHandler<S, E>]
      ensures this.state == state && curMsg == Zeros(MAX_MSG_SZ) && curMsgClient == None
      ensures this.inbox == inbox && outbox == []
    {
      var initial: map<byte, Handler<S, E>> := map[HEARTBEAT := HeartbeatHandler];
      handlers := initial;
      this.state := state;
      curMsg, curMsgClient := Zeros(MAX_MSG_SZ), None;
      this.inbox, outbox := inbox, [];
    }

    /** The first handler registered for an id stays. */
    method RegisterHandler(id: byte, h: Handler<S, E>) returns (ok: bool)
      modifies `handlers
      ensures ok == (id !in old(handlers))
      ensures handlers == if ok then old(handlers)[id := h] else old(handlers)
    {
      if id in handlers {
        return false;
      }
      handlers := handlers[id := h];
      return true;
    }

    /** `RecvChannel::start`: receive into the reused buffer unless a message is still current. */
    method Start()
      requires |curMsg| == MAX_MSG_SZ
      modifies `curMsg, `curMsgClient, `inbox
      ensures |curMsg| == MAX_MSG_SZ
      ensures old(curMsgClient).Some? || old(inbox) == [] ==>
                curMsg == old(curMsg) && curMsgClient == old(curMsgClient) && inbox == old(inbox)
      ensures old(curMsgClient).None? && old(inbox) != [] ==>
                && curMsg == Overwrite(old(curMsg), old(inbox)[0].bytes)
                && curMsgClient == Some(old(inbox)[0].peer)
                && inbox == old(inbox)[1..]
    {
      if curMsgClient.None? && inbox != [] {
        curMsg := Overwrite(curMsg, inbox[0].bytes);
        curMsgClient := Some(inbox[0].peer);
        inbox := inbox[1..];
      }
    }

    /** Build a reply segment by segment; a payload that does not fit is silently left out. */
    method BuildReply(r: Reply, payload: Option<seq<byte>>) returns (b: seq<byte>)
      requires r.payload == if payload.Some? && |payload.value| <= 4053 then payload else None
      ensures b == EncodeReply(r)
    {
      var m := new MultiMsg(MAX_MSG_SZ);
      var ok := m.Append(ReplyHeaderBytes(r));
      TotalLenSmall(ReplyHeaderBytes(r), []);
      assert m.msgs == [ReplyHeaderBytes(r)];
      if payload.Some? {
        ok := m.Append(payload.value);
      }
      assert m.msgs == ReplySegments(r);
      return m.buf;
    }

    /** Decode, call, reply; nothing is sent where the code has no defined behaviour. */
    method HandleCur(env: E) returns (reply: Option<seq<byte>>)
      requires |curMsg| == MAX_MSG_SZ
      modifies `state
      ensures match Serve(handlers, old(state), env, curMsg)
              case Crashed => reply.None? && state == old(state)
              case Replied(s, r) => reply == Some(EncodeReply(r)) && state == s
    {
      var b: seq<byte>;
      match ParseRequest(curMsg) {
        case BadHeader =>
          b := BuildReply(FatalReply(), None);
        case RequestOutOfBounds =>
          return None;
        case NoParameter(checksum) =>
          b := BuildReply(NopReply(checksum), None);
        case GoodRequest(q) =>
          if q.id !in handlers {
            return None;
          }
          var (state', res) := handlers[q.id](state, env, q.parameter);
          if res.Aborts? {
            return None;
          }
          state := state';
          if res.Returns? && ReplyReservable(res.reply) {
            b := BuildReply(OkReply(q.checksum, q.id, res.reply), Some(res.reply));
          } else {
            b := BuildReply(NopReply(q.checksum), None);
          }
      }
      return Some(b);
    }

    /** Serve the current message; `before` is everything that had been sent before this event loop. */
    method ServeCur(env: E, ghost st: LoopState<S>, ghost p: Packet, ghost before: seq<Packet>)
      returns (ok: bool, ghost next: LoopState<S>)
      requires |curMsg| == |st.buf| == MAX_MSG_SZ && !st.crashed && st.state == state
      requires curMsgClient == Some(p.peer) && curMsg == Overwrite(st.buf, p.bytes)
      requires outbox == before + st.replies
      modifies `state, `outbox
      ensures next == LoopStep(handlers, st, env, p)
      ensures next.crashed == !ok && next.state == state && next.buf == curMsg
      ensures outbox == before + next.replies
      ensures |next.replies| == |st.replies| + if ok then 1 else 0
    {
      next := LoopStep(handlers, st, env, p);
      var reply := HandleCur(env);
      ok := reply.Some?;
      if ok {
        outbox := outbox + [Packet(curMsgClient.value, reply.value)];
      }
    }

    /**
      The loop after `count` of `msgs`: the next one, if any, is in the buffer;
      `before` is what had been sent earlier.
    */
    ghost predicate AtHead(msgs: seq<Packet>, count: nat, st: LoopState<S>, before: seq<Packet>)
      reads this
    {
      && |curMsg| == |st.buf| == MAX_MSG_SZ && count <= |msgs|
      && !st.crashed && |st.replies| == count
      && state == st.state && outbox == before + st.replies
      && if count < |msgs| then
           && inbox == msgs[count + 1..]
           && curMsgClient == Some(msgs[count].peer)
           && curMsg == Overwrite(st.buf, msgs[count].bytes)
         else
           inbox == [] && curMsgClient == None && curMsg == st.buf
    }

    /** One turn of the loop: serve, count, receive the next. */
    method Turn(env: E, ghost msgs: seq<Packet>, ghost count: nat, ghost st: LoopState<S>, ghost before: seq<Packet>)
      returns (ok: bool, ghost next: LoopState<S>)
      requires AtHead(msgs, count, st, before) && count < |msgs|
      modifies `state, `curMsg, `curMsgClient, `inbox, `outbox
      ensures next == LoopStep(handlers, st, env, msgs[count])
      ensures |curMsg| == MAX_MSG_SZ
      ensures ok ==> AtHead(msgs, count + 1, next, before)
      ensures !ok ==> next.crashed && state == next.state && outbox == before + next.replies
    {
      ok, next := ServeCur(env, st, msgs[count], before);
      if ok {
        NextMsg(msgs, count + 1, next, before);
      }
    }

    /** Drop the served message and receive the next one, if there is one. */
    method NextMsg(ghost msgs: seq<Packet>, ghost count: nat, ghost st: LoopState<S>, ghost before: seq<Packet>)
      requires |curMsg| == MAX_MSG_SZ && curMsg == st.buf && state == st.state && outbox == before + st.replies
      requires !st.crashed && |st.replies| == count <= |msgs| && inbox == msgs[count..]
      modifies `curMsg, `curMsgClient, `inbox
      ensures AtHead(msgs, count, st, before)
    {
      curMsgClient := None;
      Start();
    }

    /** One event loop consumes every queued datagram, replies to each sender and counts it. */
    method RunOneEventLoop(env: nat -> E) returns (count: nat, crashed: bool, ghost states: seq<LoopState<S>>)
      requires |curMsg| == MAX_MSG_SZ && curMsgClient.None?
      modifies `state, `curMsg, `curMsgClient, `inbox, `outbox
      ensures |curMsg| == MAX_MSG_SZ
      ensures IsLoop(handlers, states, old(inbox), env)
      ensures states[0] == LoopState(old(state), old(curMsg), [], false)
      ensures var st := states[|states| - 1];
              && crashed == st.crashed
              && state == st.state && outbox == old(outbox) + st.replies
              && (!crashed ==>
                    && curMsg == st.buf && count == |old(inbox)| == |st.replies|
                    && inbox == [] && curMsgClient.None?)
      ensures !crashed ==> && |outbox| == |old(outbox)| + count
                           && forall i: nat | i < count ::
                                && outbox[|old(outbox)| + i].peer == old(inbox)[i].peer
                                && TurnRight(handlers, states, env, i, outbox[|old(outbox)| + i].bytes)
    {
      ghost var msgs := inbox;
      ghost var st := LoopState(state, curMsg, [], false);
      states := [st];
      count, crashed := 0, false;
      Start();
      while curMsgClient.Some?
        invariant AtHead(msgs, count, st, old(outbox))
        invariant |states| == count + 1 && states[count] == st
        invariant states[0] == LoopState(old(state), old(curMsg), [], false)
        invariant forall i: nat | i < count :: Turned(handlers, states, msgs, env, i)
        decreases |msgs| - count
      {
        var ok;
        ghost var next;
        ok, next := Turn(env(count), msgs, count, st, old(outbox));
        ghost var all := states + [next];
        assert Turned(handlers, all, msgs, env, count);
        TurnedExtends(handlers, states, all, msgs, env, count);
        states, st := all, next;
        if !ok {
          return count, true, states;
        }
        count := count + 1;
      }
      LoopAnswersRight(handlers, states, msgs, env, count);
      OneReplyPerDatagram(handlers, states, msgs, env, count);
      assert msgs[..count] == msgs;
    }
  }

  lemma TurnedExtends<S, E>(handlers: map<byte, Handler<S, E>>, states: seq<LoopState<S>>, all: seq<LoopState<S>>,
                            inbox: seq<Packet>, env: nat -> E, n: nat)
    requires |states| == n + 1 < |all| && all[..n + 1] == states
    requires forall i: nat | i < n :: Turned(handlers, states, inbox, env, i)
    requires Turned(handlers, all, inbox, env, n)
    ensures forall i: nat | i < n + 1 :: Turned(handlers, all, inbox, env, i)
  {
    forall i: nat | i < n ensures Turned(handlers, all, inbox, env, i) {
      assert all[i] == all[..n + 1][i] && all[i + 1] == all[..n + 1][i + 1];
      TurnedSame(handlers, states, all, inbox, env, i);
    }
  }

  lemma TurnedSame<S, E>(handlers: map<byte, Handler<S, E>>, states: seq<LoopState<S>>, all: seq<LoopState<S>>,
                         inbox: seq<Packet>, env: nat -> E, i: nat)
    requires i + 1 < |all| && Turned(handlers, states, inbox, env, i)
    requires all[i] == states[i] && all[i + 1] == states[i + 1]
    ensures Turned(handlers, all, inbox, env, i)
  {
  }
}
