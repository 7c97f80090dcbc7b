/**
  Runs of the daemon with the receive manager's handler in its table, and what
  the success of `cc_rc_msg` means in them.
*/
module MsgConnect {
  import opened Bytes
  import opened Qps
  import opened Proto
  import opened Registry
  import opened RpcRuns
  import opened RecvManagers
  import opened Connect
  import Rpc = SRpcs

  function CtrlOf(s: Manager): Ctrl { s.ctrl }

  /** The handler table runs the receive manager's handler for CreateRCM. */
  ghost predicate ServesMsg(h: Handlers<Manager, MsgEnv>) {
    && CREATE_RCM in h
    && forall s: Manager, e: MsgEnv, b: seq<byte> :: h[CREATE_RCM](s, e, b) == MsgHandler(s, e, b)
  }

  ghost predicate KeepsRings(s: Manager, s': Manager) {
    s'.r == s.r && forall n | n in s.rings :: n in s'.rings && s'.rings[n] == s.rings[n]
  }

  /** No handler of the table removes or replaces a ring. */
  ghost predicate NeverDropsRings(h: Handlers<Manager, MsgEnv>) {
    forall id, s: Manager, e: MsgEnv, b: seq<byte> | id in h :: KeepsRings(s, h[id](s, e, b).0)
  }

  /** The remote half: a success has added the binding and a ring of the requested size with all its entries posted. */
  lemma CcRcMsgLinks(s: Manager, e: MsgEnv, q: Qp, name: Name, channel: Name, msgSz: u32, nicId: u64, config: QPConfig,
                     payload: seq<byte>, dev: Device)
    returns (remote: Qp, key: nat)
    requires |name| <= MAX_NAME_LEN && |channel| <= MAX_NAME_LEN && 0 !in name && q.state != RTS
    requires MsgHandler(s, e, CcRcMsgBytes(name, channel, msgSz, MyAttr(q), nicId, config)).1 == Rpc.Returns(payload)
    requires CcRcFinish(q, payload, dev).1.Linked?
    ensures var s' := MsgHandler(s, e, CcRcMsgBytes(name, channel, msgSz, MyAttr(q), nicId, config)).0;
            && Bound(s.ctrl, s'.ctrl, name, remote, key, MyAttr(q))
            && Equips(s, s', name, msgSz)
    ensures LinkedBy(q, payload, dev, config, remote, key) && OnNic(s.ctrl, nicId, remote)
  {
    var req := CcRcMsgRequest(name, channel, msgSz, MyAttr(q), nicId, config);
    ParsesBack(req);
    PaddedNameReadsBack(name);
    NarrowExactIff(msgSz);
    remote, key := MsgReplyLinks(s, e, q, req, payload, dev);
  }

  /** The same on the decoded request. */
  lemma MsgReplyLinks(s: Manager, e: MsgEnv, q: Qp, req: RCReq, payload: seq<byte>, dev: Device)
    returns (remote: Qp, key: nat)
    requires req.whetherCreate == 1 && req.attr == MyAttr(q) && q.state != RTS
    requires MarshalMsg(MsgHandle(s, e, req).1) == Rpc.Returns(payload) && CcRcFinish(q, payload, dev).1.Linked?
    ensures Bound(s.ctrl, MsgHandle(s, e, req).0.ctrl, CString(req.name), remote, key, MyAttr(q))
    ensures Equips(s, MsgHandle(s, e, req).0, CString(req.name), Narrow(req.maxRecvSz))
    ensures LinkedBy(q, payload, dev, req.config, remote, key) && OnNic(s.ctrl, req.nicId, remote)
  {
    ReplyIsPlain(s, e, req, payload);
    remote, key := ReplyLinks(s.ctrl, e.env, q, req, payload, dev);
    AnsweredEquips(s, e, req);
  }

  lemma AnsweredEquips(s: Manager, e: MsgEnv, req: RCReq)
    requires MsgHandle(s, e, req).1.Answer? && RcHandle(s.ctrl, e.env, req).0 != s.ctrl
    ensures MsgHandle(s, e, req).0.ctrl == RcHandle(s.ctrl, e.env, req).0
    ensures Equips(s, MsgHandle(s, e, req).0, CString(req.name), Narrow(req.maxRecvSz))
  {
    MsgOutcome(s, e, req);
  }

  /** A reply of the message handler is the one that the plain creation gives. */
  lemma ReplyIsPlain(s: Manager, e: MsgEnv, req: RCReq, payload: seq<byte>)
    requires MarshalMsg(MsgHandle(s, e, req).1) == Rpc.Returns(payload)
    ensures MsgHandle(s, e, req).1.Answer? && Marshal(RcHandle(s.ctrl, e.env, req).1) == Rpc.Returns(payload)
  {
    MsgOutcome(s, e, req);
  }

  function CcRcMsgBytes(name: Name, channel: Name, msgSz: u32, a: QPAttr, nicId: u64, config: QPConfig): (b: seq<byte>)
    requires |name| <= MAX_NAME_LEN && |channel| <= MAX_NAME_LEN
  {
    DumpRCReq(CcRcMsgRequest(name, channel, msgSz, a, nicId, config))
  }

  /** `s'` has one ring more than `s`: `name`'s, over buffers of `sz` bytes, all of its entries handed to the device. */
  ghost predicate Equips(s: Manager, s': Manager, name: Name, sz: u32) {
    s'.r == s.r && name !in s.rings && s'.rings == s.rings[name := Ring(sz, s.r)]
  }

  lemma RingStep(h: Handlers<Manager, MsgEnv>, s: State<Manager, MsgEnv>, step: Step<MsgEnv>)
    requires NeverDropsRings(h) && Enabled(h, s, step)
    ensures KeepsRings(s.server, Apply(h, s, step).server)
  {
    if step.ServeOne? {
      var b := ServeMoves(h, s, step.packet, step.env);
    }
  }

  /** Over every run a ring, once there, is there in every later state. */
  lemma {:induction false} RingStays(h: Handlers<Manager, MsgEnv>, states: seq<State<Manager, MsgEnv>>,
                                     steps: seq<Step<MsgEnv>>, m: nat, n: nat)
    requires NeverDropsRings(h) && IsRun(h, states, steps) && m <= n < |states|
    ensures KeepsRings(states[m].server, states[n].server)
    decreases n
  {
    if m < n {
      RingStays(h, states, steps, m, n - 1);
      assert StepsTo(h, states[n - 1], steps[n - 1], states[n]);
      RingStep(h, states[n - 1], steps[n - 1]);
    }
  }

  /**
    Over every run of the RPC layer: when `cc_rc_msg`'s one call of its checksum
    epoch ends in success, an earlier step `m` of the run served it, bound the name
    to a queue pair linked with the client's, and gave it a ring over buffers of
    the requested size of which all R entries were posted.  The ring is there in
    every state since; the binding exactly while no DeleteRC with its key is served.
  */
  lemma CcRcMsgSafety(h: Handlers<Manager, MsgEnv>, states: seq<State<Manager, MsgEnv>>,
                      steps: seq<Step<MsgEnv>>, n: nat,
                      k: nat, d: seq<byte>, i: nat, payload: seq<byte>,
                      q: Qp, name: Name, channel: Name, msgSz: u32, nicId: u64, config: QPConfig, dev: Device)
    returns (m: nat, remote: Qp, key: nat)
    requires ServesMsg(h) && IsRun(h, states, steps) && n < |states|
    requires |name| <= MAX_NAME_LEN && |channel| <= MAX_NAME_LEN && 0 !in name && q.state != RTS
    requires AboutToAccept(h, states[n], k, d, i, CREATE_RCM,
                           CcRcMsgBytes(name, channel, msgSz, MyAttr(q), nicId, config), payload)
    requires CcRcFinish(q, payload, dev).1.Linked?
    ensures m < n && ServedAt(states, steps, m, k, states[n].clients[k].calls[i])
    ensures Bound(states[m].server.ctrl, states[m + 1].server.ctrl, name, remote, key, MyAttr(q))
    ensures Equips(states[m].server, states[m + 1].server, name, msgSz)
    ensures LinkedBy(q, payload, dev, config, remote, key) && OnNic(states[m].server.ctrl, nicId, remote)
    ensures NeverDropsRings(h) ==>
              forall j: nat | m < j <= n :: KeepsRings(states[m + 1].server, states[j].server)
    ensures DeletesOnRequest(h, CtrlOf) ==>
              (BoundThroughout(states, CtrlOf, m + 1, n, name, remote, key) <==>
                 NeverDeleted(states, steps, m + 1, n, name, key))
  {
    var parameter := CcRcMsgBytes(name, channel, msgSz, MyAttr(q), nicId, config);
    m := AnsweredByStep(h, states, steps, n, k, d, i, CREATE_RCM, parameter, payload);
    remote, key := CcRcMsgLinks(states[m].server, steps[m].env, q, name, channel, msgSz, nicId, config, payload, dev);
    if NeverDropsRings(h) {
      forall j: nat | m < j <= n ensures KeepsRings(states[m + 1].server, states[j].server) {
        RingStays(h, states, steps, m + 1, j);
      }
    }
    if DeletesOnRequest(h, CtrlOf) {
      BindingStays(h, CtrlOf, states, steps, m + 1, n, name, remote, key);
    }
  }

  // --------------------------------------------------- the daemon's table

  /** A handler of the daemon alone leaves the rings as they are. */
  function Lift(handler: Rpc.Handler<Ctrl, Env>): Rpc.Handler<Manager, MsgEnv> {
    (s: Manager, e: MsgEnv, b: seq<byte>) =>
      var (ctrl, res) := handler(s.ctrl, e.env, b);
      (s.(ctrl := ctrl), res)
  }

  /** The handlers of the daemon once a receive manager has registered its own. */
  function MsgTable(fetchMr: Fetch, fetchDc: Fetch): Handlers<Manager, MsgEnv> {
    var plain := Table(fetchMr, fetchDc);
    (map id | id in plain :: Lift(plain[id]))[CREATE_RCM := MsgHandler]
  }

  lemma MsgKeeps(s: Manager, e: MsgEnv, b: seq<byte>)
    ensures KeepsRings(s, MsgHandler(s, e, b).0) && KeepsBindings(s.ctrl, MsgHandler(s, e, b).0.ctrl)
  {
    RcHandlerKeeps(s.ctrl, e.env, b);
  }

  lemma MsgTableKeeps(fetchMr: Fetch, fetchDc: Fetch, id: byte, s: Manager, e: MsgEnv, b: seq<byte>)
    requires id in MsgTable(fetchMr, fetchDc)
    ensures var s' := MsgTable(fetchMr, fetchDc)[id](s, e, b).0;
            && KeepsRings(s, s')
            && (id != DELETE_RC ==> KeepsBindings(s.ctrl, s'.ctrl))
            && (id == DELETE_RC ==> s'.ctrl == Deleted(s.ctrl, b))
  {
    if id == CREATE_RCM {
      MsgKeeps(s, e, b);
    } else {
      TableEntry(fetchMr, fetchDc, id, s.ctrl, e.env, b);
      RcHandlerKeeps(s.ctrl, e.env, b);
    }
  }

  /** That table meets all that is asked of one above. */
  lemma MsgDaemonTable(fetchMr: Fetch, fetchDc: Fetch)
    ensures var h := MsgTable(fetchMr, fetchDc);
            ServesMsg(h) && NeverDropsRings(h) && DeletesOnRequest(h, CtrlOf)
  {
    var h := MsgTable(fetchMr, fetchDc);
    forall id, s: Manager, e: MsgEnv, b: seq<byte> | id in h ensures KeepsRings(s, h[id](s, e, b).0) {
      MsgTableKeeps(fetchMr, fetchDc, id, s, e, b);
    }
    forall id, s: Manager, e: MsgEnv, b: seq<byte> | id in h && id != DELETE_RC
      ensures KeepsBindings(CtrlOf(s), CtrlOf(h[id](s, e, b).0))
    {
      MsgTableKeeps(fetchMr, fetchDc, id, s, e, b);
    }
    forall s: Manager, e: MsgEnv, b: seq<byte>
      ensures CtrlOf(h[DELETE_RC](s, e, b).0) == Deleted(CtrlOf(s), b)
    {
      MsgTableKeeps(fetchMr, fetchDc, DELETE_RC, s, e, b);
    }
  }
}
