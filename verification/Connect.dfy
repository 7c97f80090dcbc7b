/**
  The connect manager: `cc_rc` asks the remote daemon to create and connect a
  queue pair under a name and then connects the local one to it.
*/
module Connect {
  import opened Bytes
  import opened Qps
  import opened Proto
  import opened Registry
  import opened RpcRuns
  import Rpc = SRpcs

  const CREATE_RC: byte := 2
  const CREATE_RCM: byte := 3
  const DELETE_RC: byte := 4

  datatype CcResult = Linked(key: u64) | Failed(what: string)

  function CcRcRequest(name: Name, a: QPAttr, nicId: u64, config: QPConfig): (r: RCReq)
    requires |name| <= MAX_NAME_LEN
  {
    RCReq(PadName(name), Zeros(NAME_SZ), 1, 0, nicId, config, a, 4096)
  }

  function CcRcBytes(name: Name, a: QPAttr, nicId: u64, config: QPConfig): (b: seq<byte>)
    requires |name| <= MAX_NAME_LEN
  {
    DumpRCReq(CcRcRequest(name, a, nicId, config))
  }

  function CcRcMsgRequest(name: Name, channel: Name, msgSz: u32, a: QPAttr, nicId: u64, config: QPConfig): (r: RCReq)
    requires |name| <= MAX_NAME_LEN && |channel| <= MAX_NAME_LEN
  {
    RCReq(PadName(name), PadName(channel), 1, 1, nicId, config, a, msgSz)
  }

  /** What `cc_rc` makes of the payload of an Ok reply: connect to the attribute in it. */
  function CcRcFinish(q: Qp, payload: seq<byte>, dev: Device): (r: (Qp, CcResult))
  {
    match ParseRCReply(payload)
    case None => (q, Failed("Decode reply error"))
    case Some(reply) =>
      if reply.status == CB_OK then
        var (q', ok) := ConnectQp(q, reply.attr, dev);
        (q', if ok then Linked(reply.key) else Failed("connect"))
      else (q, Failed(
        if reply.status == CB_CONNECT_ERR then "Remote connect error"
        else if reply.status == CB_WRONG_ARG then "Wrong arguments, possible the QP has exsists"
        else "Unknown status code"))
  }

  /** The daemon's handler table runs the creation handler for CreateRC. */
  ghost predicate ServesCreate(h: Handlers<Ctrl, Env>) {
    && CREATE_RC in h
    && forall s: Ctrl, env: Env, b: seq<byte> :: h[CREATE_RC](s, env, b) == RcHandler(s, env, b)
  }

  /** Both ends are in RTS, each with the other as its target. */
  ghost predicate LinkedPair(local: Qp, remote: Qp) {
    && local.state == RTS && remote.state == RTS
    && AimsAt(local, remote) && AimsAt(remote, local)
  }

  /**
    The local half: if the creation step ran on this request and its reply makes
    the client succeed, it has added the binding and the two queue pairs are linked.
  */
  lemma ReplyLinks(s: Ctrl, env: Env, q: Qp, req: RCReq, payload: seq<byte>, dev: Device) returns (remote: Qp, key: nat)
    requires req.whetherCreate == 1 && req.attr == MyAttr(q) && q.state != RTS
    requires Marshal(RcHandle(s, env, req).1) == Rpc.Returns(payload) && CcRcFinish(q, payload, dev).1.Linked?
    ensures Bound(s, RcHandle(s, env, req).0, CString(req.name), remote, key, MyAttr(q))
    ensures LinkedBy(q, payload, dev, req.config, remote, key)
    ensures OnNic(s, req.nicId, remote)
  {
    var (s', res) := RcHandle(s, env, req);
    RcHandleStep(s, env, req);
    MarshalledReply(res.reply, payload);
    remote, key := s'.qps[CString(req.name)].0, s'.qps[CString(req.name)].1;
    ConnectOutcome(q, MyAttr(remote), dev);
    ConnectAims(q, remote, dev);
    OfferedAttr(q);
  }

  predicate OnNic(s: Ctrl, nicId: u64, q: Qp) {
    nicId in s.nics && q.nic == s.nics[nicId]
  }

  /**
    Finishing `q` with this payload reports `key` and links it with `remote`; when
    the two configurations agree on a sequence number, so do the two sides.
  */
  ghost predicate LinkedBy(q: Qp, payload: seq<byte>, dev: Device, config: QPConfig, remote: Qp, key: nat) {
    var (local, r) := CcRcFinish(q, payload, dev);
    && r.Linked? && r.key == key && LinkedPair(local, remote) && remote.config == config
    && (q.config.rqPsn == config.sqPsn ==> local.expectedPsn == remote.sendPsn)
    && (q.config.sqPsn == config.rqPsn ==> remote.expectedPsn == local.sendPsn)
  }

  /** The same for the handler of CreateRC on the bytes that `cc_rc` sends. */
  lemma CcRcLinks(s: Ctrl, env: Env, q: Qp, name: Name, nicId: u64, config: QPConfig, payload: seq<byte>, dev: Device)
    returns (remote: Qp, key: nat)
    requires |name| <= MAX_NAME_LEN && 0 !in name && q.state != RTS
    requires RcHandler(s, env, CcRcBytes(name, MyAttr(q), nicId, config)).1 == Rpc.Returns(payload)
    requires CcRcFinish(q, payload, dev).1.Linked?
    ensures Bound(s, RcHandler(s, env, CcRcBytes(name, MyAttr(q), nicId, config)).0, name, remote, key, MyAttr(q))
    ensures LinkedBy(q, payload, dev, config, remote, key) && OnNic(s, nicId, remote)
  {
    var req := CcRcRequest(name, MyAttr(q), nicId, config);
    ParsesBack(req);
    PaddedNameReadsBack(name);
    remote, key := ReplyLinks(s, env, q, req, payload, dev);
  }

  lemma ParsesBack(req: RCReq)
    ensures ParseRCReq(DumpRCReq(req)) == Some(req)
  {
    RCReqRoundTrip(req, []);
    assert DumpRCReq(req) + [] == DumpRCReq(req);
  }

  /** The bytes reach the server, over whatever was in its buffer, as a request with this id, checksum and contents. */
  ghost predicate Asks(bytes: seq<byte>, id: byte, checksum: u64, stale: seq<byte>, req: RCReq)
    requires |stale| == 4096
  {
    var p := Rpc.ParseRequest(Overwrite(stale, bytes));
    && p.GoodRequest? && p.request.id == id && p.request.checksum == checksum
    && ParseRCReq(p.request.parameter) == Some(req)
  }

  lemma RequestArrives(id: byte, checksum: u64, req: RCReq, stale: seq<byte>)
    requires |stale| == 4096
    ensures Asks(Rpc.EncodeRequest(Rpc.Request(id, checksum, DumpRCReq(req))), id, checksum, stale, req)
  {
    RequestSize(req);
    Rpc.RequestRoundTrip(Rpc.Request(id, checksum, DumpRCReq(req)), stale);
    ParsesBack(req);
  }

  /** What `cc_rc` asks for, as the server reads it. */
  lemma CcRcAsks(name: Name, a: QPAttr, nicId: u64, config: QPConfig, checksum: u64,
                 stale: seq<byte>) returns (req: RCReq)
    requires |name| <= MAX_NAME_LEN && |stale| == 4096
    ensures Asks(Rpc.EncodeRequest(Rpc.Request(CREATE_RC, checksum, CcRcBytes(name, a, nicId, config))), 2,
    checksum, stale, req)
    ensures (CString(req.name) == name <==> 0 !in name) && req.whetherCreate == 1 && req.whetherRecv == 0
    ensures req.nicId == nicId && req.config == config && req.attr == a && req.maxRecvSz == 4096
  {
    req := CcRcRequest(name, a, nicId, config);
    RequestArrives(CREATE_RC, checksum, req, stale);
    PaddedNameReadsBack(name);
  }

  /** What `cc_rc_msg` asks for. */
  lemma CcRcMsgAsks(name: Name, channel: Name, msgSz: u32, a: QPAttr, nicId: u64, config: QPConfig, checksum: u64,
                    stale: seq<byte>) returns (req: RCReq)
    requires |name| <= MAX_NAME_LEN && |channel| <= MAX_NAME_LEN && |stale| == 4096
    ensures var parameter := DumpRCReq(CcRcMsgRequest(name, channel, msgSz, a, nicId, config));
            Asks(Rpc.EncodeRequest(Rpc.Request(CREATE_RCM, checksum, parameter)), 3, checksum, stale, req)
    ensures (CString(req.name) == name <==> 0 !in name) && (CString(req.nameRecv) == channel <==> 0 !in channel)
    ensures req.whetherCreate == 1 && req.whetherRecv == 1
    ensures req.nicId == nicId && req.config == config && req.attr == a && req.maxRecvSz == msgSz
  {
    req := CcRcMsgRequest(name, channel, msgSz, a, nicId, config);
    RequestArrives(CREATE_RCM, checksum, req, stale);
    PaddedNameReadsBack(name);
    PaddedNameReadsBack(channel);
  }

  // -------------------------------------------------- bindings over a run

  ghost predicate BoundTo(s: Ctrl, name: Name, q: Qp, key: nat) {
    name in s.qps && s.qps[name] == (q, key)
  }

  ghost predicate KeepsBindings(s: Ctrl, s': Ctrl) {
    forall n | n in s.qps :: n in s'.qps && s'.qps[n] == s.qps[n]
  }

  /** The registry after a DeleteRC. */
  function Deleted(s: Ctrl, b: seq<byte>): Ctrl {
    match ParseDelReq(b)
    case None => s
    case Some(req) => DeleteHandle(s, req).0
  }

  /**
    A handler table over states that hold a registry, `view`: it deletes for
    DeleteRC, and no other handler touches a binding that is there.
  */
  ghost predicate DeletesOnRequest<S(!new), E(!new)>(h: Handlers<S, E>, view: S -> Ctrl) {
    && DELETE_RC in h
    && (forall s: S, env: E, b: seq<byte> :: view(h[DELETE_RC](s, env, b).0) == Deleted(view(s), b))
    && forall id, s: S, env: E, b: seq<byte> | id in h && id != DELETE_RC ::
         KeepsBindings(view(s), view(h[id](s, env, b).0))
  }

  function Self(s: Ctrl): Ctrl { s }

  ghost predicate AsksDelete(q: Rpc.Request, name: Name, key: nat) {
    && q.id == DELETE_RC
    && var del := ParseDelReq(q.parameter);
       del.Some? && CString(del.value.name) == name && del.value.key == key
  }

  /** This step serves a DeleteRC for the name under the key. */
  ghost predicate DeletesAt<S, E>(s: State<S, E>, step: Step<E>, name: Name, key: nat) {
    ServedRequest(s, step).Some? && AsksDelete(ServedRequest(s, step).value, name, key)
  }

  lemma DeletedKeepsUnlessAsked(s: Ctrl, q: Rpc.Request, name: Name, remote: Qp, key: nat)
    requires q.id == DELETE_RC && BoundTo(s, name, remote, key)
    ensures BoundTo(Deleted(s, q.parameter), name, remote, key) <==> !AsksDelete(q, name, key)
  {
    var del := ParseDelReq(q.parameter);
    if del.Some? {
      DeleteStep(s, del.value);
    }
  }

  lemma BindingStep<S(!new), E(!new)>(h: Handlers<S, E>, view: S -> Ctrl, s: State<S, E>, step: Step<E>,
                                      name: Name, remote: Qp, key: nat)
    requires DeletesOnRequest(h, view) && Enabled(h, s, step) && BoundTo(view(s.server), name, remote, key)
    ensures BoundTo(view(Apply(h, s, step).server), name, remote, key) <==> !DeletesAt(s, step, name, key)
  {
    if step.ServeOne? {
      ServedBy(h, s, step.packet, step.env);
      var q := ServedRequest(s, step);
      if q.Some? {
        BindingHandled(h, view, s.server, step.env, q.value, name, remote, key);
      }
    }
  }

  lemma BindingHandled<S(!new), E(!new)>(h: Handlers<S, E>, view: S -> Ctrl, s: S, env: E, q: Rpc.Request,
                                         name: Name, remote: Qp, key: nat)
    requires DeletesOnRequest(h, view) && q.id in h && BoundTo(view(s), name, remote, key)
    ensures BoundTo(view(h[q.id](s, env, q.parameter).0), name, remote, key) <==> !AsksDelete(q, name, key)
  {
    if q.id == DELETE_RC {
      DeletedKeepsUnlessAsked(view(s), q, name, remote, key);
    } else {
      assert KeepsBindings(view(s), view(h[q.id](s, env, q.parameter).0));
    }
  }

  ghost predicate BoundThroughout<S(!new), E>(states: seq<State<S, E>>, view: S -> Ctrl, m: nat, n: nat,
                                              name: Name, remote: Qp, key: nat)
    requires n < |states|
  {
    forall i: nat | m <= i <= n :: BoundTo(view(states[i].server), name, remote, key)
  }

  ghost predicate NeverDeleted<S, E>(states: seq<State<S, E>>, steps: seq<Step<E>>, m: nat, n: nat, name: Name,
                                     key: nat)
    requires n <= |steps| < |states|
  {
    forall i: nat | m <= i < n :: !DeletesAt(states[i], steps[i], name, key)
  }

  /** Over every run: a binding stays as it is if and only if no DeleteRC for it, with its key, is served. */
  lemma {:induction false} BindingStays<S(!new), E(!new)>(
      h: Handlers<S, E>, view: S -> Ctrl, states: seq<State<S, E>>, steps: seq<Step<E>>,
      m: nat, n: nat, name: Name, remote: Qp, key: nat)
    requires DeletesOnRequest(h, view) && IsRun(h, states, steps) && m <= n < |states|
    requires BoundTo(view(states[m].server), name, remote, key)
    ensures BoundThroughout(states, view, m, n, name, remote, key) <==> NeverDeleted(states, steps, m, n, name, key)
    decreases n
  {
    if m < n {
      BindingStays(h, view, states, steps, m, n - 1, name, remote, key);
      assert StepsTo(h, states[n - 1], steps[n - 1], states[n]);
      if BoundThroughout(states, view, m, n - 1, name, remote, key) {
        assert BoundTo(view(states[n - 1].server), name, remote, key);
        BindingStep(h, view, states[n - 1], steps[n - 1], name, remote, key);
      }
    }
  }

  /** Call `i` of client `k`, the only ordinary one of its epoch, carries `parameter` and is about to be answered Ok. */
  ghost predicate AboutToAccept<S, E>(h: Handlers<S, E>, s: State<S, E>, k: nat, d: seq<byte>, i: nat,
                                      id: byte, parameter: seq<byte>, payload: seq<byte>) {
    && Enabled(h, s, Receive(k, d, false)) && Unwrapped(s.clients[k])
    && var c := s.clients[k];
       && i < |c.calls| && OnlyCallInEpoch(c, i) && c.calls[i] == Call(id, parameter, c.epoch)
       && AcceptsOk(c, d, false, payload)
  }

  /** Step `m` of the run served the request that client `k` makes with this call. */
  ghost predicate ServedAt<S, E>(states: seq<State<S, E>>, steps: seq<Step<E>>, m: nat, k: nat, c: Call)
    requires m < |steps| < |states|
  {
    ServedRequest(states[m], steps[m]) == Some(RequestOf(c)) && steps[m].packet.peer == k
  }

  /** Over every run: an accepted answer to the one call of its epoch was computed by an earlier step that served it. */
  lemma AnsweredByStep<S, E>(h: Handlers<S, E>, states: seq<State<S, E>>, steps: seq<Step<E>>, n: nat,
                             k: nat, d: seq<byte>, i: nat, id: byte, parameter: seq<byte>, payload: seq<byte>)
    returns (m: nat)
    requires IsRun(h, states, steps) && n < |states| && AboutToAccept(h, states[n], k, d, i, id, parameter, payload)
    ensures m < n && ServedAt(states, steps, m, k, states[n].clients[k].calls[i])
    ensures id in h && h[id](states[m].server, steps[m].env, parameter) == (states[m + 1].server, Rpc.Returns(payload))
  {
    var j := ReplyAnswersTheCall(h, states, steps, n, k, d, false, payload, i);
    m := LogIsHistory(h, states, steps, n, j);
  }

  /**
    Over every run of the RPC layer -- several clients, datagrams lost,
    duplicated and reordered, strangers sending anything: when `cc_rc`'s one
    call of its checksum epoch ends in success, an earlier step `m` of the run
    served it and bound the name to a queue pair in RTS targeting the client's,
    and the client's queue pair is in RTS targeting that one.  The key handed to
    the caller is the key of the binding, and the binding has stayed until now
    exactly when no DeleteRC with that key was served since.
  */
  lemma CcRcSafety(h: Handlers<Ctrl, Env>, states: seq<State<Ctrl, Env>>, steps: seq<Step<Env>>, n: nat,
                   k: nat, d: seq<byte>, i: nat, payload: seq<byte>,
                   q: Qp, name: Name, nicId: u64, config: QPConfig, dev: Device)
    returns (m: nat, remote: Qp, key: nat)
    requires ServesCreate(h) && IsRun(h, states, steps) && n < |states|
    requires |name| <= MAX_NAME_LEN && 0 !in name && q.state != RTS
    requires AboutToAccept(h, states[n], k, d, i, CREATE_RC, CcRcBytes(name, MyAttr(q), nicId, config), payload)
    requires CcRcFinish(q, payload, dev).1.Linked?
    ensures m < n && ServedAt(states, steps, m, k, states[n].clients[k].calls[i])
    ensures Bound(states[m].server, states[m + 1].server, name, remote, key, MyAttr(q))
    ensures LinkedBy(q, payload, dev, config, remote, key) && OnNic(states[m].server, nicId, remote)
    ensures DeletesOnRequest(h, Self) ==>
              (BoundThroughout(states, Self, m + 1, n, name, remote, key) <==>
                 NeverDeleted(states, steps, m + 1, n, name, key))
  {
    m := AnsweredByStep(h, states, steps, n, k, d, i, CREATE_RC, CcRcBytes(name, MyAttr(q), nicId, config), payload);
    remote, key := CcRcLinks(states[m].server, steps[m].env, q, name, nicId, config, payload, dev);
    if DeletesOnRequest(h, Self) {
      BindingStays(h, Self, states, steps, m + 1, n, name, remote, key);
    }
  }

  /** Each handler of the daemon creates, deletes, or leaves the registry alone. */
  ghost predicate DaemonHandlers(h: Handlers<Ctrl, Env>) {
    forall id, s: Ctrl, env: Env, b: seq<byte> | id in h ::
      var s' := h[id](s, env, b).0;
      s' == s || s' == RcHandler(s, env, b).0 || s' == DeleteRc(s, env, b).0
  }

  /** Over every run of the daemon, whatever arrives from whom, all registered queue pairs are connected and keyed. */
  lemma {:induction false} RegistryUsableInRuns(h: Handlers<Ctrl, Env>, states: seq<State<Ctrl, Env>>,
                                                steps: seq<Step<Env>>, n: nat)
    requires DaemonHandlers(h) && IsRun(h, states, steps) && n < |states| && AllUsable(states[0].server)
    ensures AllUsable(states[n].server)
  {
    if n > 0 {
      RegistryUsableInRuns(h, states, steps, n - 1);
      assert StepsTo(h, states[n - 1], steps[n - 1], states[n]);
      StepUsable(h, states[n - 1], steps[n - 1]);
    }
  }

  lemma StepUsable(h: Handlers<Ctrl, Env>, s: State<Ctrl, Env>, step: Step<Env>)
    requires DaemonHandlers(h) && Enabled(h, s, step) && AllUsable(s.server)
    ensures AllUsable(Apply(h, s, step).server)
  {
    if step.ServeOne? {
      var b := ServeMoves(h, s, step.packet, step.env);
      var after := Apply(h, s, step).server;
      if after != s.server {
        var id :| id in h && after == h[id](s.server, step.env, b).0;
        HandlerUsable(h, s.server, id, step.env, b);
      }
    }
  }

  lemma HandlerUsable(h: Handlers<Ctrl, Env>, s: Ctrl, id: byte, env: Env, b: seq<byte>)
    requires DaemonHandlers(h) && id in h && AllUsable(s)
    ensures AllUsable(h[id](s, env, b).0)
  {
    StepCtrlUsable(s, Create(env, b));
    StepCtrlUsable(s, Delete(env, b));
  }

  lemma RcHandlerKeeps(s: Ctrl, env: Env, b: seq<byte>)
    ensures KeepsBindings(s, RcHandler(s, env, b).0)
  {
    var req := ParseRCReq(b);
    if req.Some? {
      RcHandleStep(s, env, req.value);
    }
  }

  const FETCH_MR: byte := 1
  const FETCH_QP_ATTR: byte := 5
  const FETCH_DC_ATTR: byte := 6

  /** `fetch_qp_attr_wrapper`; its request is laid out as a name and a key, like that of a deletion. */
  function FetchQpHandler(s: Ctrl, env: Env, b: seq<byte>): (r: (Ctrl, Rpc.HandlerResult)) {
    match ParseDelReq(b)
    case None => (s, Rpc.Returns(DumpRCReply(Status(CB_WRONG_ARG))))
    case Some(req) => (s, Rpc.Returns(DumpRCReply(FetchQpAttr(s.qps, CString(req.name), 0))))
  }

  /** The attribute of a bound name with key 0, not-found for another, wrong argument for too few bytes. */
  lemma FetchQpServed(s: Ctrl, env: Env, b: seq<byte>)
    ensures var (s', out) := FetchQpHandler(s, env, b);
            && s' == s && out.Returns?
            && ParseRCReply(out.reply) == Some(
                 if |b| < 72 then RCReply(3, NO_ATTR, 0)
                 else if CString(b[..64]) in s.qps then RCReply(0, MyAttr(s.qps[CString(b[..64])].0), 0)
                 else RCReply(2, NO_ATTR, 0))
  {
    if |b| < 72 {
      MarshalledReply(Status(CB_WRONG_ARG), DumpRCReply(Status(CB_WRONG_ARG)));
    } else {
      DelReqLayout(b);
      var reply := FetchQpAttr(s.qps, CString(b[..64]), 0);
      MarshalledReply(reply, DumpRCReply(reply));
    }
  }

  /** A handler that reads registries outside this state and answers as they have it. */
  type Fetch = (Env, seq<byte>) -> Rpc.HandlerResult

  /** The handlers that the daemon starts with. */
  function Table(fetchMr: Fetch, fetchDc: Fetch): Handlers<Ctrl, Env> {
    map[Rpc.HEARTBEAT := Rpc.HeartbeatHandler<Ctrl, Env>,
        FETCH_MR := (s: Ctrl, env: Env, b: seq<byte>) => (s, fetchMr(env, b)),
        CREATE_RC := RcHandler, DELETE_RC := DeleteRc, FETCH_QP_ATTR := FetchQpHandler,
        FETCH_DC_ATTR := (s: Ctrl, env: Env, b: seq<byte>) => (s, fetchDc(env, b))]
  }

  lemma TableEntry(fetchMr: Fetch, fetchDc: Fetch, id: byte, s: Ctrl, env: Env, b: seq<byte>)
    requires id in Table(fetchMr, fetchDc)
    ensures var s' := Table(fetchMr, fetchDc)[id](s, env, b).0;
            s' == if id == CREATE_RC then RcHandler(s, env, b).0
                  else if id == DELETE_RC then DeleteRc(s, env, b).0
                  else s
  {
  }

  lemma TableKeeps(fetchMr: Fetch, fetchDc: Fetch)
    ensures DeletesOnRequest(Table(fetchMr, fetchDc), Self)
  {
    var h := Table(fetchMr, fetchDc);
    forall id, s: Ctrl, env: Env, b: seq<byte> | id in h && id != DELETE_RC
      ensures KeepsBindings(Self(s), Self(h[id](s, env, b).0))
    {
      TableEntry(fetchMr, fetchDc, id, s, env, b);
      RcHandlerKeeps(s, env, b);
    }
  }

  lemma TableHandlers(fetchMr: Fetch, fetchDc: Fetch)
    ensures DaemonHandlers(Table(fetchMr, fetchDc))
  {
    var h := Table(fetchMr, fetchDc);
    forall id, s: Ctrl, env: Env, b: seq<byte> | id in h
      ensures var s' := h[id](s, env, b).0; s' == s || s' == RcHandler(s, env, b).0 || s' == DeleteRc(s, env, b).0
    {
      TableEntry(fetchMr, fetchDc, id, s, env, b);
    }
  }

  /** The daemon's table meets all that is asked of one above. */
  lemma DaemonTable(fetchMr: Fetch, fetchDc: Fetch)
    ensures var h := Table(fetchMr, fetchDc); ServesCreate(h) && DaemonHandlers(h) && DeletesOnRequest(h, Self)
  {
    TableKeeps(fetchMr, fetchDc);
    TableHandlers(fetchMr, fetchDc);
  }

  /** A queue pair that is already in RTS keeps its old peer although `cc_rc` reports success. */
  lemma CcRcOnConnectedQp(q: Qp, payload: seq<byte>, dev: Device)
    requires q.state == RTS
    ensures CcRcFinish(q, payload, dev).0 == q
    ensures CcRcFinish(q, payload, dev).1.Linked? <==>
              ParseRCReply(payload).Some? && ParseRCReply(payload).value.status == CB_OK
  {
  }

  lemma RequestSize(req: RCReq)
    ensures |DumpRCReq(req)| == RCREQ_SZ
  {
    RCReqRoundTrip(req, []);
  }

  /** The payload is an Ok reply and the local queue pair connects, or was connected before. */
  predicate Finishes(q: Qp, payload: seq<byte>, dev: Device) {
    && ParseRCReply(payload).Some? && ParseRCReply(payload).value.status == 0
    && (q.state == RTS || (q.state == INIT && dev.rtrOk && dev.rtsOk))
  }

  /**
    What the payload of an accepted reply leads to: success exactly under that
    condition, and every failure by its name.
  */
  lemma FinishIs(q: Qp, payload: seq<byte>, dev: Device)
    ensures var (q', r) := CcRcFinish(q, payload, dev);
            && (r.Linked? <==> Finishes(q, payload, dev))
            && (r.Linked? ==>
                  var reply := ParseRCReply(payload).value;
                  r.key == reply.key && if q.state == RTS then q' == q else Connected(q', reply.attr))
            && (!r.Linked? ==> (q'.state == RTS <==> q.state == RTS))
  {
  }

  lemma FinishFailure(q: Qp, payload: seq<byte>, dev: Device)
    requires !Finishes(q, payload, dev)
    ensures var ((q', r), o) := (CcRcFinish(q, payload, dev), ParseRCReply(payload));
            && r == Failed(
                 if o.None? then "Decode reply error"
                 else if o.value.status == 0 then "connect"
                 else if o.value.status == 3 then "Wrong arguments, possible the QP has exsists"
                 else if o.value.status == 4 then "Remote connect error"
                 else "Unknown status code")
            && (o.None? || o.value.status != 0 ==> q' == q)
  {
  }

  /**
    How a call ends that sent its request: with what the payload of the Ok reply
    under the current checksum leads to, if that is the first reply that is no
    heartbeat's; and otherwise with a failure.
  */
  ghost predicate Outcome(inbox: seq<Rpc.RecvEvent>, c: u64, c': u64, q: Qp, dev: Device, q': Qp, r: CcResult) {
    && (forall payload | Rpc.OkFrom(inbox, c, payload) ::
          (q', r) == CcRcFinish(q, payload, dev) && c' == (c + 1) % 0x1_0000_0000_0000_0000)
    && ((forall payload :: !Rpc.OkFrom(inbox, c, payload)) ==> r == Failed("unknown error") && q' == q)
    && (r.Linked? <==> exists payload :: Rpc.OkFrom(inbox, c, payload) && Finishes(q, payload, dev))
  }

  lemma OutcomeOk(inbox: seq<Rpc.RecvEvent>, c: u64, c': u64, q: Qp, dev: Device, payload: seq<byte>)
    requires Rpc.OkFrom(inbox, c, payload) && c' == (c + 1) % 0x1_0000_0000_0000_0000
    ensures Outcome(inbox, c, c', q, dev, CcRcFinish(q, payload, dev).0, CcRcFinish(q, payload, dev).1)
  {
    FinishIs(q, payload, dev);
  }

  lemma OutcomeNone(inbox: seq<Rpc.RecvEvent>, c: u64, c': u64, q: Qp, dev: Device)
    requires forall payload :: !Rpc.OkFrom(inbox, c, payload)
    ensures Outcome(inbox, c, c', q, dev, q, Failed("unknown error"))
  {
  }

  /** The reply that makes `cc_rc` succeed is one that `CcRcSafety` speaks of. */
  lemma SuccessIsAccepted(inbox: seq<Rpc.RecvEvent>, c: Client, payload: seq<byte>)
    requires Rpc.OkFrom(inbox, c.checksum, payload)
    ensures AcceptsOk(c, inbox[Rpc.LeadingHeartbeats(inbox)].bytes, false, payload)
  {
    Rpc.OrdinaryOkIff(Rpc.Received(inbox[Rpc.LeadingHeartbeats(inbox)].bytes), c.checksum, payload,
                      Rpc.NextChecksum(c.checksum));
  }

  /** Only a receive that expired ends in a timeout. */
  lemma NoTimeout(inbox: seq<Rpc.RecvEvent>, c: u64, r: Rpc.RecvResult, c': u64)
    requires inbox != [] ==> Rpc.EndsWith(inbox[0], c, true, r, c')
    ensures inbox != [] ==> (r == Rpc.Timeout <==> inbox[0].Expired?)
  {
    if inbox != [] && inbox[0].Datagram? {
      Rpc.NoTimeoutFromDatagram(Rpc.Received(inbox[0].bytes), c, true);
    }
  }

  /** The sends of the first `n` rounds that succeed before one fails. */
  function SendsBefore(sendOk: nat -> bool, n: nat): (k: nat)
    ensures k <= n && (forall i: nat | i < k :: sendOk(i)) && (k < n ==> !sendOk(k))
  {
    if n == 0 then 0
    else
      var k := SendsBefore(sendOk, n - 1);
      if k == n - 1 && sendOk(k) then n else k
  }

  class ConnectManager {
    const rpc: Rpc.SRpc

    constructor (rpc: Rpc.SRpc)
      ensures this.rpc == rpc
    {
      this.rpc := rpc;
    }

    /** Send one request and wait for its reply; `None` is any failure on the way. */
    method Ask(id: byte, parameter: seq<byte>, sendOk: bool) returns (payload: Option<seq<byte>>)
      requires |parameter| <= 4054
      modifies rpc
      ensures rpc.outbox == old(rpc.outbox) +
                if sendOk then [Rpc.EncodeRequest(Rpc.Request(id, old(rpc.checksum), parameter))] else []
      ensures payload.Some? ==> sendOk && Rpc.OkFrom(old(rpc.inbox), old(rpc.checksum), payload.value)
      ensures payload.None? && sendOk ==> forall p :: !Rpc.OkFrom(old(rpc.inbox), old(rpc.checksum), p)
      ensures payload.Some? ==> rpc.checksum == (old(rpc.checksum) + 1) % 0x1_0000_0000_0000_0000
    {
      var sent := rpc.Call(id, parameter, sendOk);
      if sent != Rpc.Sent {
        return None;
      }
      var reply := rpc.ReceiveReply(false);
      return if reply.Ok? then Some(reply.payload) else None;
    }

    method Finish(rc: RC, payload: seq<byte>, dev: Device) returns (r: CcResult)
      modifies rc
      ensures (rc.qp, r) == CcRcFinish(old(rc.qp), payload, dev)
    {
      var o := ParseRCReply(payload);
      if o.None? {
        return Failed("Decode reply error");
      }
      if o.value.status == CB_OK {
        var ok := rc.Connect(o.value.attr, dev);
        return if ok then Linked(o.value.key) else Failed("connect");
      }
      return Failed(
        if o.value.status == CB_CONNECT_ERR then "Remote connect error"
        else if o.value.status == CB_WRONG_ARG then "Wrong arguments, possible the QP has exsists"
        else "Unknown status code");
    }

    /** What `cc_rc` and `cc_rc_msg` share: ask for a queue pair and connect the local one to it. */
    method Link(id: byte, req: RCReq, rc: RC, sendOk: bool, dev: Device) returns (r: CcResult)
      modifies rpc, rc
      ensures rpc.outbox == old(rpc.outbox) +
                if sendOk then [Rpc.EncodeRequest(Rpc.Request(id, old(rpc.checksum), DumpRCReq(req)))] else []
      ensures sendOk ==> Outcome(old(rpc.inbox), old(rpc.checksum), rpc.checksum, old(rc.qp), dev, rc.qp, r)
      ensures !sendOk ==> r == Failed("unknown error") && rc.qp == old(rc.qp)
      ensures !r.Linked? ==> (rc.qp.state == RTS <==> old(rc.qp).state == RTS)
    {
      RequestSize(req);
      ghost var q := rc.qp;
      var payload := Ask(id, DumpRCReq(req), sendOk);
      if payload.None? {
        if sendOk {
          OutcomeNone(old(rpc.inbox), old(rpc.checksum), rpc.checksum, q, dev);
        }
        return Failed("unknown error");
      }
      r := Finish(rc, payload.value, dev);
      FinishIs(q, payload.value, dev);
      OutcomeOk(old(rpc.inbox), old(rpc.checksum), rpc.checksum, q, dev, payload.value);
    }

    /**
      `cc_rc`.  The request carries the local attribute under the current
      checksum; it succeeds if and only if the first reply that is no heartbeat's
      is the Ok reply under that checksum and its payload finishes the local connect.
    */
    method CcRc(name: Name, rc: RC, nicId: u64, config: QPConfig, sendOk: bool, dev: Device) returns (r: CcResult)
      modifies rpc, rc
      ensures |name| > MAX_NAME_LEN ==>
                && r == Failed("Name to long") && rc.qp == old(rc.qp)
                && rpc.outbox == old(rpc.outbox) && rpc.inbox == old(rpc.inbox)
      ensures |name| <= MAX_NAME_LEN ==>
                var parameter := CcRcBytes(name, MyAttr(old(rc.qp)), nicId, config);
                rpc.outbox == old(rpc.outbox) +
                  if sendOk then [Rpc.EncodeRequest(Rpc.Request(CREATE_RC, old(rpc.checksum), parameter))] else []
      ensures |name| <= MAX_NAME_LEN ==>
                if sendOk then Outcome(old(rpc.inbox), old(rpc.checksum), rpc.checksum, old(rc.qp), dev, rc.qp, r)
                else r == Failed("unknown error") && rc.qp == old(rc.qp)
      ensures !r.Linked? ==> (rc.qp.state == RTS <==> old(rc.qp).state == RTS)
    {
      if |name| > MAX_NAME_LEN {
        return Failed("Name to long");
      }
      r := Link(CREATE_RC, CcRcRequest(name, MyAttr(rc.qp), nicId, config), rc, sendOk, dev);
    }

    /** `cc_rc_msg`: the same for a queue pair that also receives, from buffers of `msgSz` bytes of a named channel. */
    method CcRcMsg(name: Name, channel: Name, msgSz: u32, rc: RC, nicId: u64, config: QPConfig, sendOk: bool,
                   dev: Device)
      returns (r: CcResult)
      requires |channel| <= MAX_NAME_LEN
      modifies rpc, rc
      ensures |name| > MAX_NAME_LEN ==>
                && r == Failed("Name to long") && rc.qp == old(rc.qp)
                && rpc.outbox == old(rpc.outbox) && rpc.inbox == old(rpc.inbox)
      ensures |name| <= MAX_NAME_LEN ==>
                var req := CcRcMsgRequest(name, channel, msgSz, MyAttr(old(rc.qp)), nicId, config);
                rpc.outbox == old(rpc.outbox) +
                  if sendOk then [Rpc.EncodeRequest(Rpc.Request(CREATE_RCM, old(rpc.checksum), DumpRCReq(req)))] else []
      ensures |name| <= MAX_NAME_LEN ==>
                if sendOk then Outcome(old(rpc.inbox), old(rpc.checksum), rpc.checksum, old(rc.qp), dev, rc.qp, r)
                else r == Failed("unknown error") && rc.qp == old(rc.qp)
    {
      if |name| > MAX_NAME_LEN {
        return Failed("Name to long");
      }
      r := Link(CREATE_RCM, CcRcMsgRequest(name, channel, msgSz, MyAttr(rc.qp), nicId, config), rc, sendOk, dev);
    }

    /** One round of `wait_ready`; `None` means to try again. */
    method Ping(sendOk: bool) returns (r: Option<Rpc.RecvResult>)
      modifies rpc
      ensures rpc.outbox == old(rpc.outbox) +
                if sendOk then [Rpc.EncodeRequest(Rpc.Request(Rpc.HEARTBEAT, old(rpc.checksum), ['0' as int]))] else []
      ensures if !sendOk then
                r == Some(Rpc.Err("send")) && rpc.checksum == old(rpc.checksum) && rpc.inbox == old(rpc.inbox)
              else if old(rpc.inbox) == [] then
                r.None? && rpc.inbox == [] && rpc.checksum == old(rpc.checksum)
              else
                var e, result := old(rpc.inbox)[0], if r.None? then Rpc.Timeout else r.value;
                && rpc.inbox == old(rpc.inbox)[1..] && (r.None? <==> e.Expired?)
                && Rpc.EndsWith(e, old(rpc.checksum), true, result, rpc.checksum)
    {
      var sent := rpc.Call(Rpc.HEARTBEAT, ['0' as int], sendOk);
      if sent != Rpc.Sent {
        return Some(Rpc.Err("send"));
      }
      var reply := rpc.ReceiveReply(true);
      NoTimeout(old(rpc.inbox), old(rpc.checksum), reply, rpc.checksum);
      return if reply == Rpc.Timeout then None else Some(reply);
    }

    /**
      `wait_ready`: one heartbeat request per round under an unchanged checksum;
      `sendOk(i)` says whether that of round `i` goes out.  It goes on while sends
      succeed and receives expire, at most `retry` times, and ends with the first
      send that fails or with what the first other receive ends with.
    */
    method WaitReady(retry: nat, sendOk: nat -> bool) returns (r: Rpc.RecvResult, ghost rounds: nat)
      modifies rpc
      ensures rpc.outbox == old(rpc.outbox)
                + seq(rounds, _ => Rpc.EncodeRequest(Rpc.Request(Rpc.HEARTBEAT, old(rpc.checksum), ['0' as int])))
      ensures var t, k := Rpc.LeadingExpired(old(rpc.inbox)), SendsBefore(sendOk, retry);
              if k < retry && (k <= t || t == |old(rpc.inbox)|) then
                r == Rpc.Err("send") && rounds == k && rpc.checksum == old(rpc.checksum)
              else if t >= retry || t == |old(rpc.inbox)| then
                r == Rpc.Timeout && rounds == retry && rpc.checksum == old(rpc.checksum)
              else
                && rounds == t + 1 && rpc.inbox == old(rpc.inbox)[t + 1..]
                && Rpc.EndsWith(old(rpc.inbox)[t], old(rpc.checksum), true, r, rpc.checksum)
      ensures r.Ok? ==> && 0 < rounds <= |old(rpc.inbox)|
                        && Rpc.ReadyBy(old(rpc.inbox)[rounds - 1], old(rpc.checksum), r.payload, rpc.checksum)
    {
      ghost var box, c, t := rpc.inbox, rpc.checksum, Rpc.LeadingExpired(rpc.inbox);
      ghost var ping := Rpc.EncodeRequest(Rpc.Request(Rpc.HEARTBEAT, c, ['0' as int]));
      rounds := 0;
      for i := 0 to retry
        invariant rounds == i <= SendsBefore(sendOk, retry) && rpc.checksum == c
        invariant i <= t || t == |box|
        invariant rpc.inbox == if i <= |box| then box[i..] else []
        invariant rpc.outbox == old(rpc.outbox) + seq(i, _ => ping)
      {
        var answer := Ping(sendOk(i));
        if !sendOk(i) {
          return Rpc.Err("send"), rounds;
        }
        assert rpc.outbox == old(rpc.outbox) + seq(i + 1, _ => ping);
        rounds := i + 1;
        if answer.Some? {
          if answer.value.Ok? {
            Rpc.OkIsReady(box[i], c, answer.value.payload, rpc.checksum);
          }
          return answer.value, rounds;
        }
      }
      return Rpc.Timeout, rounds;
    }
  }
}
