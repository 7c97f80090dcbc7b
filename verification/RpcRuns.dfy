/**
  Runs of the bootstrap RPC: any number of clients, one server, and a datagram
  network that may lose, duplicate and reorder.  The network is the set of
  datagrams ever sent; delivering any of them any number of times, in any order
  or never, covers all three.  Peers that are not RLib clients may send
  arbitrary bytes to the server.
*/
module RpcRuns {
  import opened Bytes
  import opened MultiMsgs
  import opened SRpcs

  /** A call as the client made it; `epoch` counts the replies it had accepted by then. */
  datatype Call = Call(id: byte, parameter: seq<byte>, epoch: nat)

  datatype Client = Client(checksum: u64, epoch: nat, calls: seq<Call>)

  /** One execution of a handler by the event loop. */
  datatype LogEntry<S, E> = LogEntry(peer: nat, request: Request, pre: S, env: E, post: S, reply: Reply)

  datatype State<S, E> = State(
    clients: map<nat, Client>,
    requests: set<Packet>,
    replies: set<Packet>,
    server: S,
    buf: seq<byte>,
    log: seq<LogEntry<S, E>>)

  datatype Step<E> =
    | Invoke(k: nat, id: byte, parameter: seq<byte>)     // SRpc::call
    | ServeOne(packet: Packet, env: E)                   // one event-loop iteration
    | Receive(k: nat, bytes: seq<byte>, heartbeat: bool) // one pass of receive_reply
    | Foreign(packet: Packet)                            // a datagram from someone else

  type Handlers<!S, !E> = map<byte, Handler<S, E>>

  function ChecksumOf(epoch: nat): u64 {
    (1 + epoch) % 0x1_0000_0000_0000_0000
  }

  function RequestOf(c: Call): Request {
    Request(c.id, ChecksumOf(c.epoch), c.parameter)
  }

  predicate Enabled<S, E>(h: Handlers<S, E>, s: State<S, E>, step: Step<E>)
  {
    && |s.buf| == MAX_MSG_SZ
    && match step
       case Invoke(k, id, p) => k in s.clients && RequestFits(Request(id, s.clients[k].checksum, p))
       case ServeOne(p, env) => p in s.requests && Serve(h, s.server, env, Overwrite(s.buf, p.bytes)).Replied?
       case Receive(k, d, hb) => k in s.clients && Packet(k, d) in s.replies
       case Foreign(p) => p.peer !in s.clients
  }

  function Apply<S, E>(h: Handlers<S, E>, s: State<S, E>, step: Step<E>): (s': State<S, E>)
    requires Enabled(h, s, step)
  {
    match step
    case Invoke(k, id, p) =>
      var c := s.clients[k];
      s.(clients := s.clients[k := c.(calls := c.calls + [Call(id, p, c.epoch)])],
         requests := s.requests + {Packet(k, EncodeRequest(Request(id, c.checksum, p)))})
    case ServeOne(p, env) =>
      var b := Overwrite(s.buf, p.bytes);
      var r := Serve(h, s.server, env, b);
      s.(server := r.state, buf := b,
         replies := s.replies + {Packet(p.peer, EncodeReply(r.reply))},
         log := match ParseRequest(b)
                case GoodRequest(q) => s.log + [LogEntry(p.peer, q, s.server, env, r.state, r.reply)]
                case _ => s.log)
    case Receive(k, d, hb) =>
      s.(clients := s.clients[k := AfterReceive(s.clients[k], d, hb)])
    case Foreign(p) =>
      s.(requests := s.requests + {p})
  }

  /** The client after one pass over a delivered datagram. */
  function AfterReceive(c: Client, d: seq<byte>, heartbeat: bool): Client {
    var dec := DecideBuffer(Received(d), c.checksum, heartbeat);
    if dec.Return? && dec.checksum != c.checksum
    then c.(checksum := dec.checksum, epoch := c.epoch + 1) else c
  }

  ghost predicate Init<S, E>(s: State<S, E>)
  {
    && (forall k | k in s.clients :: s.clients[k] == Client(INVALID_CHECKSUM + 1, 0, []))
    && s.requests == {} && s.replies == {} && s.log == []
    && |s.buf| == MAX_MSG_SZ
  }

  ghost predicate IsRun<S, E>(h: Handlers<S, E>, states: seq<State<S, E>>, steps: seq<Step<E>>)
  {
    && |states| == |steps| + 1
    && Init(states[0])
    && forall i: nat | i < |steps| :: StepsTo(h, states[i], steps[i], states[i + 1])
  }

  ghost predicate StepsTo<S, E>(h: Handlers<S, E>, s: State<S, E>, step: Step<E>, s': State<S, E>) {
    Enabled(h, s, step) && s' == Apply(h, s, step)
  }

  // ---------------------------------------------- the steps and the objects

  /** A server step is one turn of the event loop, and it is there exactly when the turn is defined. */
  lemma ServeIsTurn<S, E>(h: Handlers<S, E>, s: State<S, E>, p: Packet, env: E, sent: seq<Packet>)
    requires |s.buf| == MAX_MSG_SZ && p in s.requests
    ensures var next := LoopStep(h, LoopState(s.server, s.buf, sent, false), env, p);
            && (Enabled(h, s, ServeOne(p, env)) <==> !Undefinable(h, s.server, env, Overwrite(s.buf, p.bytes)))
            && (Enabled(h, s, ServeOne(p, env)) ==>
                  var s' := Apply(h, s, ServeOne(p, env));
                  && !next.crashed && next.state == s'.server && next.buf == s'.buf
                  && |next.replies| == |sent| + 1 && s'.replies == s.replies + {next.replies[|sent|]})
  {
  }

  /** A client step sends what `call` sends, exactly when `call` sends it. */
  lemma InvokeIsCall<S, E>(h: Handlers<S, E>, s: State<S, E>, k: nat, id: byte, parameter: seq<byte>)
    requires |s.buf| == MAX_MSG_SZ && k in s.clients
    ensures Enabled(h, s, Invoke(k, id, parameter)) <==> |parameter| <= 4054
    ensures Enabled(h, s, Invoke(k, id, parameter)) ==>
              Apply(h, s, Invoke(k, id, parameter)).requests ==
                s.requests + {Packet(k, EncodeRequest(Request(id, s.clients[k].checksum, parameter)))}
  {
  }

  /** A receive step leaves the checksum that one pass of `receive_reply` leaves. */
  lemma ReceiveIsPass(c: Client, d: seq<byte>, heartbeat: bool, r: RecvResult, c': u64)
    requires EndsWith(Datagram(d), c.checksum, heartbeat, r, c')
    ensures AfterReceive(c, d, heartbeat).checksum == c' && AfterReceive(c, d, heartbeat).calls == c.calls
    ensures AfterReceive(c, d, heartbeat).epoch == c.epoch + if c' == c.checksum then 0 else 1
  {
  }

  /** The network forgets nothing: whatever was sent once can be delivered again. */
  lemma NetworkKeeps<S, E>(h: Handlers<S, E>, s: State<S, E>, step: Step<E>)
    requires Enabled(h, s, step)
    ensures s.requests <= Apply(h, s, step).requests && s.replies <= Apply(h, s, step).replies
    ensures Apply(h, s, step).clients.Keys == s.clients.Keys
  {
  }

  // ------------------------------------------------------------- invariant

  ghost predicate SentBy(c: Client, q: Request) {
    exists i: nat :: i < |c.calls| && RequestOf(c.calls[i]) == q
  }

  ghost predicate ClientOk(c: Client) {
    && c.checksum == ChecksumOf(c.epoch)
    && forall i: nat | i < |c.calls| :: c.calls[i].epoch <= c.epoch && RequestFits(RequestOf(c.calls[i]))
  }

  ghost predicate RequestKnown(c: Client, bytes: seq<byte>) {
    exists q: Request :: SentBy(c, q) && bytes == EncodeRequest(q)
  }

  ghost predicate OnWire(requests: set<Packet>, k: nat, c: Call) {
    Packet(k, EncodeRequest(RequestOf(c))) in requests
  }

  ghost predicate ReplyKnown<S, E>(log: seq<LogEntry<S, E>>, p: Packet) {
    exists j: nat :: j < |log| && log[j].peer == p.peer && EncodeReply(log[j].reply) == p.bytes
  }

  /** The handler was run on the request from the recorded state and produced the recorded reply. */
  ghost predicate EntryOk<S, E>(h: Handlers<S, E>, clients: map<nat, Client>, e: LogEntry<S, E>) {
    && ServeRequest(h, e.pre, e.env, e.request) == Replied(e.post, e.reply)
    && (e.peer in clients ==> SentBy(clients[e.peer], e.request))
  }

  ghost predicate Inv<S, E>(h: Handlers<S, E>, s: State<S, E>) {
    && |s.buf| == MAX_MSG_SZ
    && (forall k | k in s.clients :: ClientOk(s.clients[k]))
    && (forall p | p in s.requests && p.peer in s.clients :: RequestKnown(s.clients[p.peer], p.bytes))
    && (forall p | p in s.replies && p.peer in s.clients :: ReplyKnown(s.log, p))
    && (forall j: nat | j < |s.log| :: EntryOk(h, s.clients, s.log[j]))
  }

  lemma InvInit<S, E>(h: Handlers<S, E>, s: State<S, E>)
    requires Init(s)
    ensures Inv(h, s)
  {
  }

  lemma ReplyKnownGrows<S, E>(log: seq<LogEntry<S, E>>, log': seq<LogEntry<S, E>>, p: Packet)
    requires log <= log' && ReplyKnown(log, p)
    ensures ReplyKnown(log', p)
  {
  }

  /** Changing one client so that its calls only grow keeps what is known about packets and the log. */
  lemma InvUpdateClient<S, E>(h: Handlers<S, E>, s: State<S, E>, k: nat, c': Client)
    requires Inv(h, s) && k in s.clients && ClientOk(c') && s.clients[k].calls <= c'.calls
    ensures Inv(h, s.(clients := s.clients[k := c']))
  {
  }

  lemma InvInvoke<S, E>(h: Handlers<S, E>, s: State<S, E>, k: nat, id: byte, p: seq<byte>)
    requires Inv(h, s) && Enabled(h, s, Invoke(k, id, p))
    ensures Inv(h, Apply(h, s, Invoke(k, id, p)))
  {
    var c := s.clients[k];
    var c' := c.(calls := c.calls + [Call(id, p, c.epoch)]);
    InvUpdateClient(h, s, k, c');
    var q := Request(id, c.checksum, p);
    assert RequestOf(c'.calls[|c.calls|]) == q;
    assert SentBy(c', q);
    assert RequestKnown(c', EncodeRequest(q));
  }

  lemma NextChecksumOf(epoch: nat)
    ensures NextChecksum(ChecksumOf(epoch)) == ChecksumOf(epoch + 1)
  {
  }

  lemma ReceivedKeepsClientOk(c: Client, d: seq<byte>, hb: bool)
    requires ClientOk(c)
    ensures ClientOk(AfterReceive(c, d, hb)) && AfterReceive(c, d, hb).calls == c.calls
    ensures c.epoch <= AfterReceive(c, d, hb).epoch
  {
    ChecksumAdvance(Received(d), c.checksum, hb);
    NextChecksumOf(c.epoch);
  }

  lemma InvReceive<S, E>(h: Handlers<S, E>, s: State<S, E>, k: nat, d: seq<byte>, hb: bool)
    requires Inv(h, s) && Enabled(h, s, Receive(k, d, hb))
    ensures Inv(h, Apply(h, s, Receive(k, d, hb)))
  {
    ReceivedKeepsClientOk(s.clients[k], d, hb);
    InvUpdateClient(h, s, k, AfterReceive(s.clients[k], d, hb));
  }

  /** The server decodes a client's datagram as a request that this client made. */
  lemma ClientPacketParses<S, E>(h: Handlers<S, E>, s: State<S, E>, p: Packet)
    requires Inv(h, s) && p in s.requests && p.peer in s.clients
    ensures var r := ParseRequest(Overwrite(s.buf, p.bytes));
            r.GoodRequest? && SentBy(s.clients[p.peer], r.request)
  {
    var c := s.clients[p.peer];
    var q: Request :| SentBy(c, q) && p.bytes == EncodeRequest(q);
    var i: nat :| i < |c.calls| && RequestOf(c.calls[i]) == q;
    RequestRoundTrip(q, s.buf);
  }

  lemma InvServe<S, E>(h: Handlers<S, E>, s: State<S, E>, p: Packet, env: E)
    requires Inv(h, s) && Enabled(h, s, ServeOne(p, env))
    ensures Inv(h, Apply(h, s, ServeOne(p, env)))
  {
    var s' := Apply(h, s, ServeOne(p, env));
    if p.peer in s.clients {
      ClientPacketParses(h, s, p);
      var j := |s.log|;
      assert s'.log[j].peer == p.peer && Packet(p.peer, EncodeReply(s'.log[j].reply)) in s'.replies;
      assert ReplyKnown(s'.log, Packet(p.peer, EncodeReply(s'.log[j].reply)));
    }
    forall q | q in s.replies && q.peer in s.clients ensures ReplyKnown(s'.log, q) {
      ReplyKnownGrows(s.log, s'.log, q);
    }
    forall j: nat | j < |s'.log| ensures EntryOk(h, s'.clients, s'.log[j]) {
      if j < |s.log| {
        assert s'.log[j] == s.log[j];
      }
    }
  }

  lemma InvStep<S, E>(h: Handlers<S, E>, s: State<S, E>, step: Step<E>)
    requires Inv(h, s) && Enabled(h, s, step)
    ensures Inv(h, Apply(h, s, step))
  {
    match step
    case Invoke(k, id, p) => InvInvoke(h, s, k, id, p);
    case ServeOne(p, env) => InvServe(h, s, p, env);
    case Receive(k, d, hb) => InvReceive(h, s, k, d, hb);
    case Foreign(p) =>
  }

  lemma {:induction false} RunInv<S, E>(h: Handlers<S, E>, states: seq<State<S, E>>, steps: seq<Step<E>>, n: nat)
    requires IsRun(h, states, steps) && n < |states|
    ensures Inv(h, states[n])
  {
    if n == 0 {
      InvInit(h, states[0]);
    } else {
      RunInv(h, states, steps, n - 1);
      assert StepsTo(h, states[n - 1], steps[n - 1], states[n]);
      InvStep(h, states[n - 1], steps[n - 1]);
    }
  }

  // ---------------------------------------------------------- main results

  /** The checksum of a client has not wrapped around 2^64. */
  predicate Unwrapped(c: Client) {
    c.epoch < 0xFFFF_FFFF_FFFF_FFFF
  }

  /** `Ok(payload)` is what this pass of `receive_reply` returns for a reply that advances the checksum. */
  predicate AcceptsOk(c: Client, d: seq<byte>, heartbeat: bool, payload: seq<byte>) {
    DecideBuffer(Received(d), c.checksum, heartbeat) == Return(Ok(payload), NextChecksum(c.checksum))
  }

  predicate Accepts(c: Client, d: seq<byte>, heartbeat: bool) {
    var dec := DecideBuffer(Received(d), c.checksum, heartbeat);
    dec.Return? && dec.checksum != c.checksum
  }

  /**
    Entry `e` answers call `i` of client `c`: the handler registered for its id
    returned `payload` on its parameter.
  */
  ghost predicate Answers<S, E>(h: Handlers<S, E>, e: LogEntry<S, E>, c: Client, i: nat, payload: seq<byte>)
    requires i < |c.calls|
  {
    && e.request == RequestOf(c.calls[i])
    && c.calls[i].id in h && c.calls[i].id != HEARTBEAT
    && h[c.calls[i].id](e.pre, e.env, c.calls[i].parameter) == (e.post, Returns(payload))
  }

  lemma ChecksumOfInjective(a: nat, b: nat)
    requires a <= b < 0xFFFF_FFFF_FFFF_FFFF && ChecksumOf(a) == ChecksumOf(b)
    ensures a == b
  {
  }

  /**
    A payload that `receive_reply` returns with the checksum advanced is the
    output of the registered handler on a non-heartbeat request which this very
    client sent under its current checksum.
  */
  lemma AcceptedReplyAnswers<S, E>(h: Handlers<S, E>, s: State<S, E>, k: nat, d: seq<byte>, hb: bool,
                                   payload: seq<byte>)
    returns (j: nat, i: nat)
    requires Inv(h, s) && Enabled(h, s, Receive(k, d, hb)) && Unwrapped(s.clients[k])
    requires AcceptsOk(s.clients[k], d, hb, payload)
    ensures j < |s.log| && s.log[j].peer == k
    ensures i < |s.clients[k].calls| && s.clients[k].calls[i].epoch == s.clients[k].epoch
    ensures Answers(h, s.log[j], s.clients[k], i, payload)
  {
    j := ReplyEntry(h, s, k, d);
    i := AcceptedCall(h, s.log[j], s.clients[k], d, hb, payload);
  }

  /** A reply on the wire to a client was made by an entry of the log. */
  lemma ReplyEntry<S, E>(h: Handlers<S, E>, s: State<S, E>, k: nat, d: seq<byte>) returns (j: nat)
    requires Inv(h, s) && k in s.clients && Packet(k, d) in s.replies
    ensures j < |s.log| && s.log[j].peer == k && EncodeReply(s.log[j].reply) == d
    ensures EntryOk(h, s.clients, s.log[j])
  {
    assert ReplyKnown(s.log, Packet(k, d));
    j :| j < |s.log| && s.log[j].peer == k && EncodeReply(s.log[j].reply) == d;
  }

  lemma AcceptedCall<S, E>(h: Handlers<S, E>, e: LogEntry<S, E>, c: Client, d: seq<byte>, hb: bool, payload: seq<byte>)
    returns (i: nat)
    requires ClientOk(c) && Unwrapped(c) && SentBy(c, e.request) && AcceptsOk(c, d, hb, payload)
    requires ServeRequest(h, e.pre, e.env, e.request) == Replied(e.post, e.reply) && d == EncodeReply(e.reply)
    ensures i < |c.calls| && c.calls[i].epoch == c.epoch && Answers(h, e, c, i, payload)
  {
    AcceptedEntry(h, e, c, d, hb, payload);
    i :| i < |c.calls| && RequestOf(c.calls[i]) == e.request;
    ChecksumOfInjective(c.calls[i].epoch, c.epoch);
  }

  lemma AcceptedEntry<S, E>(h: Handlers<S, E>, e: LogEntry<S, E>, c: Client, d: seq<byte>, hb: bool, payload: seq<byte>)
    requires ServeRequest(h, e.pre, e.env, e.request) == Replied(e.post, e.reply)
    requires d == EncodeReply(e.reply) && AcceptsOk(c, d, hb, payload)
    ensures e.request.id in h && e.request.id != HEARTBEAT && e.request.checksum == c.checksum
    ensures h[e.request.id](e.pre, e.env, e.request.parameter) == (e.post, Returns(payload))
  {
    ServedFits(h, e);
    AcceptedReplyShape(e.reply, c, d, hb, payload);
    OkEntryOutput(h, e, payload);
  }

  lemma AcceptedReplyShape(r: Reply, c: Client, d: seq<byte>, hb: bool, payload: seq<byte>)
    requires ReplyFits(r) && d == EncodeReply(r) && AcceptsOk(c, d, hb, payload)
    ensures r == Reply(STATUS_OK, c.checksum, 0, Some(payload))
  {
    DecideEncoded(r, d, c.checksum, hb);
    DecidedOkShape(r, c.checksum, hb, payload);
  }

  lemma DecidedOkShape(r: Reply, checksum: u64, hb: bool, payload: seq<byte>)
    requires DecideReply(r, true, checksum, hb) == Return(Ok(payload), NextChecksum(checksum))
    ensures r == Reply(STATUS_OK, checksum, 0, Some(payload))
  {
  }

  lemma OkEntryOutput<S, E>(h: Handlers<S, E>, e: LogEntry<S, E>, payload: seq<byte>)
    requires ServeRequest(h, e.pre, e.env, e.request) == Replied(e.post, e.reply)
    requires e.reply.status == STATUS_OK && e.reply.dummy == 0 && e.reply.payload == Some(payload)
    ensures e.request.id in h && e.request.id != HEARTBEAT && e.reply.checksum == e.request.checksum
    ensures h[e.request.id](e.pre, e.env, e.request.parameter) == (e.post, Returns(payload))
  {
  }

  lemma ServedFits<S, E>(h: Handlers<S, E>, e: LogEntry<S, E>)
    requires ServeRequest(h, e.pre, e.env, e.request) == Replied(e.post, e.reply)
    ensures ReplyFits(e.reply)
  {
  }

  /** The request that a step serves, if it serves one that decodes. */
  function ServedRequest<S, E>(s: State<S, E>, step: Step<E>): (q: Option<Request>) {
    if step.ServeOne? && |s.buf| == MAX_MSG_SZ then
      match ParseRequest(Overwrite(s.buf, step.packet.bytes))
      case GoodRequest(q) => Some(q)
      case _ => None
    else None
  }

  /** Step `m` of the run served the request of `e`, from the recorded state to the recorded one. */
  ghost predicate LoggedAt<S, E>(states: seq<State<S, E>>, steps: seq<Step<E>>, m: nat, e: LogEntry<S, E>)
    requires m < |steps| < |states|
  {
    EntryMade(states[m], steps[m], states[m + 1], e)
  }

  ghost predicate EntryMade<S, E>(s: State<S, E>, step: Step<E>, s': State<S, E>, e: LogEntry<S, E>) {
    && ServedRequest(s, step) == Some(e.request)
    && step.packet.peer == e.peer && step.env == e.env && s.server == e.pre && s'.server == e.post
  }

  /** The step leaves the log as it is or adds the entry of the request that it served. */
  ghost predicate LogGrows<S, E>(s: State<S, E>, step: Step<E>, s': State<S, E>) {
    || s'.log == s.log
    || (|s'.log| == |s.log| + 1 && s'.log[..|s.log|] == s.log && EntryMade(s, step, s', s'.log[|s.log|]))
  }

  lemma LogStep<S, E>(h: Handlers<S, E>, s: State<S, E>, step: Step<E>, s': State<S, E>)
    requires StepsTo(h, s, step, s')
    ensures LogGrows(s, step, s')
  {
  }

  /** The log is the history of the run: each entry was made by the step that found the earlier ones. */
  lemma LogIsHistory<S, E>(h: Handlers<S, E>, states: seq<State<S, E>>, steps: seq<Step<E>>, n: nat, j: nat)
    returns (m: nat)
    requires IsRun(h, states, steps) && n < |states| && j < |states[n].log|
    ensures m < n && LoggedAt(states, steps, m, states[n].log[j])
    ensures states[m].log == states[n].log[..j]
  {
    forall i: nat | i < |steps| ensures LogGrows(states[i], steps[i], states[i + 1]) {
      LogStep(h, states[i], steps[i], states[i + 1]);
    }
    m := EntryStep(states, steps, n, j);
  }

  lemma {:induction false} EntryStep<S, E>(states: seq<State<S, E>>, steps: seq<Step<E>>, n: nat, j: nat)
    returns (m: nat)
    requires |states| == |steps| + 1 && states[0].log == []
    requires forall i: nat | i < |steps| :: LogGrows(states[i], steps[i], states[i + 1])
    requires n < |states| && j < |states[n].log|
    ensures m < n && LoggedAt(states, steps, m, states[n].log[j])
    ensures states[m].log == states[n].log[..j]
  {
    assert LogGrows(states[n - 1], steps[n - 1], states[n]);
    m := n - 1;
    if j < |states[n - 1].log| {
      m := EntryStep(states, steps, n - 1, j);
      SamePrefix(states[n - 1].log, states[n].log, j);
    }
  }

  lemma SamePrefix<T>(a: seq<T>, b: seq<T>, j: nat)
    requires |a| <= |b| && b[..|a|] == a && j < |a|
    ensures a[j] == b[j] && a[..j] == b[..j]
  {
    assert b[..|a|][..j] == b[..j];
    assert b[..|a|][j] == b[j];
  }

  /** Call `i` is the only non-heartbeat call of its epoch. */
  predicate OnlyCallInEpoch(c: Client, i: nat)
    requires i < |c.calls|
  {
    forall i': nat | i' < |c.calls| && i' != i && c.calls[i'].epoch == c.calls[i].epoch :: c.calls[i'].id == HEARTBEAT
  }

  /**
    Over every run: a client that made one non-heartbeat call since its last
    accepted reply gets, as Ok, the handler's output for exactly that call.
  */
  lemma ReplyAnswersTheCall<S, E>(h: Handlers<S, E>, states: seq<State<S, E>>, steps: seq<Step<E>>, n: nat,
                                  k: nat, d: seq<byte>, hb: bool, payload: seq<byte>, i: nat)
    returns (j: nat)
    requires IsRun(h, states, steps) && n < |states|
    requires Enabled(h, states[n], Receive(k, d, hb)) && Unwrapped(states[n].clients[k])
    requires AcceptsOk(states[n].clients[k], d, hb, payload)
    requires i < |states[n].clients[k].calls| && OnlyCallInEpoch(states[n].clients[k], i)
    requires states[n].clients[k].calls[i].epoch == states[n].clients[k].epoch
    ensures j < |states[n].log| && states[n].log[j].peer == k
    ensures Answers(h, states[n].log[j], states[n].clients[k], i, payload)
  {
    RunInv(h, states, steps, n);
    var i';
    j, i' := AcceptedReplyAnswers(h, states[n], k, d, hb, payload);
    assert i' == i;
  }

  lemma {:induction false} EpochMonotone<S, E>(h: Handlers<S, E>, states: seq<State<S, E>>,
                                               steps: seq<Step<E>>, a: nat, b: nat, k: nat)
    requires IsRun(h, states, steps) && a <= b < |states| && k in states[a].clients
    ensures k in states[b].clients && states[a].clients[k].epoch <= states[b].clients[k].epoch
  {
    if a < b {
      EpochMonotone(h, states, steps, a, b - 1, k);
      assert StepsTo(h, states[b - 1], steps[b - 1], states[b]);
    }
  }

  /** No reply datagram is accepted twice by the same client, however often it is delivered. */
  lemma NoReplyAcceptedTwice<S, E>(h: Handlers<S, E>, states: seq<State<S, E>>, steps: seq<Step<E>>, a: nat, b: nat)
    requires IsRun(h, states, steps) && a < b < |steps|
    requires steps[a].Receive? && steps[b].Receive? && steps[a].k == steps[b].k
    requires steps[a].k in states[a].clients
    requires Accepts(states[a].clients[steps[a].k], steps[a].bytes, steps[a].heartbeat)
    requires steps[b].k in states[b].clients
    requires Accepts(states[b].clients[steps[b].k], steps[b].bytes, steps[b].heartbeat)
    requires Unwrapped(states[b].clients[steps[b].k])
    ensures steps[a].bytes != steps[b].bytes
  {
    var k := steps[a].k;
    assert StepsTo(h, states[a], steps[a], states[a + 1]);
    EpochMonotone(h, states, steps, a + 1, b, k);
    RunInv(h, states, steps, a);
    RunInv(h, states, steps, b);
    var ca, cb := states[a].clients[k], states[b].clients[k];
    ChecksumAdvance(Received(steps[a].bytes), ca.checksum, steps[a].heartbeat);
    ChecksumAdvance(Received(steps[b].bytes), cb.checksum, steps[b].heartbeat);
    assert states[a + 1].clients[k].epoch == ca.epoch + 1;
    if ChecksumOf(ca.epoch) == ChecksumOf(cb.epoch) {
      ChecksumOfInjective(ca.epoch, cb.epoch);
      assert false;
    }
  }

  /** What `receive_reply` returns as Ok outside heartbeat mode is an accepted reply, and the checksum has moved. */
  lemma OkIsAccepted(c: Client, d: seq<byte>, payload: seq<byte>, c': u64)
    requires DecideBuffer(Received(d), c.checksum, false) == Return(Ok(payload), c')
    ensures AcceptsOk(c, d, false, payload) && Accepts(c, d, false) && c' == NextChecksum(c.checksum)
  {
    OrdinaryOkIff(Received(d), c.checksum, payload, c');
  }

  /** Over every run: a reply datagram is returned as Ok at most once, however often it is delivered. */
  lemma NoReplyReturnedTwice<S, E>(h: Handlers<S, E>, states: seq<State<S, E>>, steps: seq<Step<E>>, a: nat, b: nat,
                                   k: nat, d: seq<byte>, p: seq<byte>, ca: u64, cb: u64)
    requires IsRun(h, states, steps) && a < b < |steps|
    requires steps[a] == Receive(k, d, false) && steps[b] == Receive(k, d, false)
    requires k in states[a].clients && k in states[b].clients && Unwrapped(states[b].clients[k])
    requires DecideBuffer(Received(d), states[a].clients[k].checksum, false) == Return(Ok(p), ca)
    ensures DecideBuffer(Received(d), states[b].clients[k].checksum, false) != Return(Ok(p), cb)
  {
    OkIsAccepted(states[a].clients[k], d, p, ca);
    if DecideBuffer(Received(d), states[b].clients[k].checksum, false) == Return(Ok(p), cb) {
      OkIsAccepted(states[b].clients[k], d, p, cb);
      NoReplyAcceptedTwice(h, states, steps, a, b);
    }
  }

  lemma FatalDecision(checksum: u64, d: seq<byte>, hb: bool)
    requires checksum != INVALID_CHECKSUM && d == EncodeReply(FatalReply())
    ensures DecideBuffer(Received(d), checksum, hb) == Return(Err("Fatal checksum error"), checksum)
  {
    DecideEncoded(FatalReply(), d, checksum, hb);
  }

  /** The reply to an undecodable request never matches a client whose checksum has not wrapped. */
  lemma FatalReplyNeverMatches<S, E>(h: Handlers<S, E>, states: seq<State<S, E>>, steps: seq<Step<E>>, n: nat,
                                     k: nat, hb: bool)
    requires IsRun(h, states, steps) && n < |states| && k in states[n].clients && Unwrapped(states[n].clients[k])
    ensures var c := states[n].clients[k];
            && c.checksum != INVALID_CHECKSUM
            && DecideBuffer(Received(EncodeReply(FatalReply())), c.checksum, hb)
               == Return(Err("Fatal checksum error"), c.checksum)
  {
    RunInv(h, states, steps, n);
    FatalDecision(states[n].clients[k].checksum, EncodeReply(FatalReply()), hb);
  }

  /** Every call a client made is still deliverable: the network forgets nothing for good. */
  ghost predicate CallsOnWire<S, E>(s: State<S, E>) {
    forall k | k in s.clients :: ClientOnWire(s.requests, k, s.clients[k].calls)
  }

  ghost predicate ClientOnWire(requests: set<Packet>, k: nat, calls: seq<Call>) {
    forall i: nat | i < |calls| :: OnWire(requests, k, calls[i])
  }

  lemma {:induction false} RunCallsOnWire<S, E>(h: Handlers<S, E>, states: seq<State<S, E>>,
                                                steps: seq<Step<E>>, n: nat)
    requires IsRun(h, states, steps) && n < |states|
    ensures CallsOnWire(states[n])
  {
    if n > 0 {
      RunCallsOnWire(h, states, steps, n - 1);
      RunInv(h, states, steps, n - 1);
      assert StepsTo(h, states[n - 1], steps[n - 1], states[n]);
      StepCallsOnWire(h, states[n - 1], steps[n - 1]);
    }
  }

  lemma StepCallsOnWire<S, E>(h: Handlers<S, E>, s: State<S, E>, step: Step<E>)
    requires CallsOnWire(s) && Enabled(h, s, step)
    requires forall k | k in s.clients :: ClientOk(s.clients[k])
    ensures CallsOnWire(Apply(h, s, step))
  {
  }

  /**
    Why one call per epoch is needed.  A timed-out call leaves the checksum
    alone, so any call of the current epoch can still be the one answered:
    deliver its request, then the reply, and `receive_reply` returns that
    handler's output whatever was called since.
  */
  lemma AnyCallOfTheEpochCanBeAnswered<S, E>(h: Handlers<S, E>, states: seq<State<S, E>>, steps: seq<Step<E>>, n: nat,
                                             k: nat, i: nat, env: E, post: S, out: seq<byte>, hb: bool)
    requires IsRun(h, states, steps) && n < |states| && k in states[n].clients
    requires var c := states[n].clients[k];
             && i < |c.calls| && c.calls[i].epoch == c.epoch && c.calls[i].id != HEARTBEAT
             && c.calls[i].id in h
             && h[c.calls[i].id](states[n].server, env, c.calls[i].parameter) == (post, Returns(out))
    requires |out| <= 4053
    ensures var s, c := states[n], states[n].clients[k];
            var serve := ServeOne(Packet(k, EncodeRequest(RequestOf(c.calls[i]))), env);
            var d := EncodeReply(OkReply(c.checksum, c.calls[i].id, out));
            && Enabled(h, s, serve)
            && Apply(h, s, serve).clients == s.clients
            && Apply(h, s, serve).server == post
            && Enabled(h, Apply(h, s, serve), Receive(k, d, hb))
            && AcceptsOk(c, d, hb, out)
  {
    var s, c := states[n], states[n].clients[k];
    RunInv(h, states, steps, n);
    RunCallsOnWire(h, states, steps, n);
    assert ClientOnWire(s.requests, k, c.calls) && OnWire(s.requests, k, c.calls[i]);
    assert ClientOk(c) && RequestFits(RequestOf(c.calls[i]));
    ServeKnownRequest(h, s, k, RequestOf(c.calls[i]), EncodeRequest(RequestOf(c.calls[i])), env, post, out);
    OkReplyAccepted(c, c.calls[i].id, out, hb);
  }

  lemma ServeKnownRequest<S, E>(h: Handlers<S, E>, s: State<S, E>, k: nat, q: Request, bytes: seq<byte>,
                                env: E, post: S, out: seq<byte>)
    requires Packet(k, bytes) in s.requests && |s.buf| == MAX_MSG_SZ
    requires RequestFits(q) && bytes == EncodeRequest(q)
    requires q.id in h && h[q.id](s.server, env, q.parameter) == (post, Returns(out)) && |out| <= 4053
    ensures var serve := ServeOne(Packet(k, bytes), env);
            && Enabled(h, s, serve)
            && Apply(h, s, serve).clients == s.clients
            && Apply(h, s, serve).server == post
            && |Apply(h, s, serve).buf| == MAX_MSG_SZ
            && Packet(k, EncodeReply(OkReply(q.checksum, q.id, out))) in Apply(h, s, serve).replies
  {
    var b := Overwrite(s.buf, bytes);
    RequestRoundTrip(q, s.buf);
    ServeParsed(h, s.server, env, b, q, post, out);
    assert Enabled(h, s, ServeOne(Packet(k, bytes), env));
  }

  lemma ServeParsed<S, E>(h: Handlers<S, E>, state: S, env: E, b: seq<byte>, q: Request, post: S, out: seq<byte>)
    requires |b| == MAX_MSG_SZ && ParseRequest(b) == GoodRequest(q)
    requires q.id in h && h[q.id](state, env, q.parameter) == (post, Returns(out)) && |out| <= 4053
    ensures Serve(h, state, env, b) == Replied(post, OkReply(q.checksum, q.id, out))
  {
  }

  lemma OkReplyAccepted(c: Client, id: byte, out: seq<byte>, hb: bool)
    requires id != HEARTBEAT && |out| <= 4053
    ensures AcceptsOk(c, EncodeReply(OkReply(c.checksum, id, out)), hb, out)
  {
    DecideEncoded(OkReply(c.checksum, id, out), EncodeReply(OkReply(c.checksum, id, out)), c.checksum, hb);
  }

  /** The server state after serving a datagram: the handler's if it decodes, else the old one. */
  lemma ServedBy<S, E>(h: Handlers<S, E>, s: State<S, E>, p: Packet, env: E)
    requires Enabled(h, s, ServeOne(p, env))
    ensures var s' := Apply(h, s, ServeOne(p, env)).server;
            match ParseRequest(Overwrite(s.buf, p.bytes))
            case GoodRequest(q) => q.id in h && s' == h[q.id](s.server, env, q.parameter).0
            case _ => s' == s.server
  {
  }

  /** Serving a datagram moves the server state by one registered handler, or not at all. */
  lemma ServeMoves<S, E>(h: Handlers<S, E>, s: State<S, E>, p: Packet, env: E)
    returns (b: seq<byte>)
    requires Enabled(h, s, ServeOne(p, env))
    ensures var s' := Apply(h, s, ServeOne(p, env)).server;
            s' == s.server || exists id | id in h :: s' == h[id](s.server, env, b).0
  {
    var r := ParseRequest(Overwrite(s.buf, p.bytes));
    b := if r.GoodRequest? then r.request.parameter else [];
    ServedBy(h, s, p, env);
  }
}
