/**
  The name registry (`Factory`) and the control daemon's handlers that use it.
*/
module Registry {
  import opened Bytes
  import opened Qps
  import opened Proto
  import Rpc = SRpcs

  type Name = seq<byte>

  // --------------------------------------------------------------- factory

  /** The successive results of `rand()` up to the first one that is not zero. */
  type Draws = d: seq<nat> | |d| > 0 && d[|d| - 1] != 0 && (forall i: nat | i < |d| :: d[i] < 0x8000_0000)
    witness [1]

  /** The key is a draw that is not zero, and every draw before it is. */
  ghost predicate IsFirstDraw(d: seq<nat>, key: nat) {
    exists k: nat :: k < |d| && d[k] == key != 0 && forall i: nat | i < k :: d[i] == 0
  }

  function FirstNonZero(d: Draws): (k: nat)
    ensures 0 < k < 0x8000_0000
    ensures IsFirstDraw(d, k)
  {
    if d[0] != 0 then d[0]
    else
      DrawBehindZero(d, FirstNonZero(d[1..]));
      FirstNonZero(d[1..])
  }

  lemma DrawBehindZero(d: seq<nat>, key: nat)
    requires |d| > 0 && d[0] == 0 && IsFirstDraw(d[1..], key)
    ensures IsFirstDraw(d, key)
  {
    var k: nat :| k < |d| - 1 && d[1..][k] == key != 0 && forall i: nat | i < k :: d[1..][i] == 0;
    forall i: nat | i < k + 1 ensures d[i] == 0 {
      assert i > 0 ==> d[i] == d[1..][i - 1];
    }
    assert d[k + 1] == key;
  }

  class Factory<K(==), V> {
    var store: map<K, (V, nat)>

    constructor ()
      ensures store == map[]
    {
      store := map[];
    }

    static method GenerateKey(draws: Draws) returns (key: nat)
      ensures key == FirstNonZero(draws) && IsFirstDraw(draws, key)
    {
      var i := 0;
      key := draws[0];
      while key == 0
        invariant i < |draws| && key == draws[i]
        invariant FirstNonZero(draws) == FirstNonZero(draws[i..])
        decreases |draws| - i
      {
        i := i + 1;
        key := draws[i];
      }
    }

    /** A taken name is refused; a fresh one is bound under a new nonzero key. */
    method Reg(k: K, v: V, draws: Draws) returns (key: Option<nat>)
      modifies this
      ensures k in old(store) ==> key == None && store == old(store)
      ensures k !in old(store) ==>
                && key == Some(FirstNonZero(draws)) && IsFirstDraw(draws, key.value)
                && store == old(store)[k := (v, key.value)]
    {
      if k in store {
        return None;
      }
      var newKey := GenerateKey(draws);
      store := store[k := (v, newKey)];
      return Some(newKey);
    }

    method Query(k: K) returns (v: Option<V>)
      ensures v == if k in store then Some(store[k].0) else None
    {
      return if k in store then Some(store[k].0) else None;
    }

    /** Only the matching key removes a binding. */
    method Dereg(k: K, key: nat) returns (v: Option<V>)
      modifies this
      ensures k in old(store) && old(store)[k].1 == key ==> v == Some(old(store)[k].0) && store == old(store) - {k}
      ensures !(k in old(store) && old(store)[k].1 == key) ==> v == None && store == old(store)
    {
      if k in store && store[k].1 == key {
        v := Some(store[k].0);
        store := store - {k};
      } else {
        v := None;
      }
    }
  }

  // -------------------------------------------------- the handlers on values

  datatype Ctrl = Ctrl(nics: map<u64, Nic>, qps: map<Name, (Qp, nat)>)

  /** What a handler call draws from outside: random numbers and the device's answers. */
  datatype Env = Env(draws: Draws, dev: Device)

  /** The outcome of the creation handler before it is marshalled. */
  datatype RcResult = Threw | Answered(reply: RCReply)

  function Status(status: byte): RCReply {
    RCReply(status, NO_ATTR, 0)
  }

  function FetchQpAttr(qps: map<Name, (Qp, nat)>, name: Name, key: u64): RCReply {
    if name in qps then RCReply(CB_OK, MyAttr(qps[name].0), key) else Status(CB_NOT_FOUND)
  }

  function RcHandle(s: Ctrl, env: Env, req: RCReq): (r: (Ctrl, RcResult))
  {
    var name := CString(req.name);
    var wrongArg := (s, Answered(Status(CB_WRONG_ARG)));
    if req.whetherCreate == 0 then wrongArg
    else if req.whetherCreate != 1 then (s, Answered(FetchQpAttr(s.qps, name, 0)))
    else if req.nicId !in s.nics then wrongArg
    else
      var q := CreateQp(s.nics[req.nicId], req.config, env.dev);
      if q.None? then (s, Threw)
      else if name in s.qps then wrongArg
      else
        var (q', ok) := ConnectQp(q.value, req.attr, env.dev);
        if !ok then wrongArg
        else
          var key := FirstNonZero(env.draws);
          var qps := s.qps[name := (q', key)];
          (s.(qps := qps), Answered(FetchQpAttr(qps, name, key)))
  }

  function Marshal(res: RcResult): Rpc.HandlerResult {
    if res.Threw? then Rpc.Raises else Rpc.Returns(DumpRCReply(res.reply))
  }

  function RcHandler(s: Ctrl, env: Env, b: seq<byte>): (r: (Ctrl, Rpc.HandlerResult))
  {
    match ParseRCReq(b)
    case None => (s, Rpc.Returns(DumpRCReply(Status(CB_WRONG_ARG))))
    case Some(req) =>
      var (s', res) := RcHandle(s, env, req);
      (s', Marshal(res))
  }

  function DeleteHandle(s: Ctrl, req: DelRCReq): (r: (Ctrl, RCReply))
  {
    var name := CString(req.name);
    if name in s.qps && s.qps[name].1 == req.key
    then (s.(qps := s.qps - {name}), Status(CB_OK))
    else (s, Status(CB_WRONG_ARG))
  }

  function DeleteRc(s: Ctrl, env: Env, b: seq<byte>): (r: (Ctrl, Rpc.HandlerResult))
  {
    match ParseDelReq(b)
    case None => (s, Rpc.Returns(DumpRCReply(Status(CB_WRONG_ARG))))
    case Some(req) =>
      var (s', reply) := DeleteHandle(s, req);
      (s', Rpc.Returns(DumpRCReply(reply)))
  }

  /** `s'` has exactly one binding more than `s`: `name`, to a queue pair in RTS towards `peer`, under a nonzero key. */
  ghost predicate Bound(s: Ctrl, s': Ctrl, name: Name, q: Qp, key: nat, peer: QPAttr) {
    && name !in s.qps
    && s' == s.(qps := s.qps[name := (q, key)])
    && Connected(q, peer)
    && 0 < key < 0x8000_0000
  }

  /** The queue pair is on the requested NIC and has the requested configuration. */
  predicate MadeFor(s: Ctrl, req: RCReq, q: Qp) {
    req.nicId in s.nics && q.nic == s.nics[req.nicId] && q.config == req.config
  }

  /**
    Each step of the creation handler either adds exactly one binding, whose
    attribute and key are those in the reply, or leaves the registry as it was
    -- also when connecting fails after the name was taken.
  */
  lemma RcHandleStep(s: Ctrl, env: Env, req: RCReq)
    ensures var (s', res) := RcHandle(s, env, req);
            var name := CString(req.name);
            if s' == s then
              res.Answered? && res.reply.status == CB_OK ==>
                res.reply.key == 0 && name in s.qps && req.whetherCreate != 1
            else
              && req.whetherCreate == 1
              && name in s'.qps
              && var (q, key) := s'.qps[name];
                 && Bound(s, s', name, q, key, req.attr)
                 && MadeFor(s, req, q) && env.dev.created == Some(q.num)
                 && IsFirstDraw(env.draws, key)
                 && res == Answered(RCReply(CB_OK, MyAttr(q), key))
  {
  }

  /** What a request that adds no binding is answered with. */
  lemma RcHandleRefusal(s: Ctrl, env: Env, req: RCReq)
    requires RcHandle(s, env, req).0 == s
    ensures var res, name := RcHandle(s, env, req).1, CString(req.name);
            && (res == Threw <==> req.whetherCreate == 1 && req.nicId in s.nics && env.dev.created.None?)
            && (req.whetherCreate > 1 ==>
                  res == Answered(if name in s.qps then RCReply(0, MyAttr(s.qps[name].0), 0) else RCReply(2,
                  NO_ATTR, 0)))
            && (req.whetherCreate <= 1 && res != Threw ==> res == Answered(RCReply(3, NO_ATTR, 0)))
  {
  }

  /** A binding is added exactly when all of this holds at the call. */
  lemma RcHandleSucceedsIff(s: Ctrl, env: Env, req: RCReq)
    ensures RcHandle(s, env, req).0 != s <==>
      && req.whetherCreate == 1 && req.nicId in s.nics && CString(req.name) !in s.qps
      && env.dev.created.Some? && env.dev.initOk && env.dev.rtrOk && env.dev.rtsOk
  {
  }

  /** Deletion is confirmed if and only if the binding with the given key was there and is gone. */
  lemma DeleteStep(s: Ctrl, req: DelRCReq)
    ensures var (s', reply) := DeleteHandle(s, req);
            var name := CString(req.name);
            && reply == RCReply(if name in s.qps && s.qps[name].1 == req.key then 0 else 3, NO_ATTR, 0)
            && (reply.status == 0 <==> s' != s) && s'.nics == s.nics
            && (reply.status == 0 ==>
                  name !in s'.qps && forall n | n in s.qps && n != name :: n in s'.qps && s'.qps[n] == s.qps[n])
  {
  }

  /** Creating a binding and deleting it with the returned key restores the registry. */
  lemma CreateThenDelete(s: Ctrl, env: Env, req: RCReq, del: DelRCReq)
    requires RcHandle(s, env, req).0 != s
    requires CString(del.name) == CString(req.name)
    requires RcHandle(s, env, req).1.Answered? && del.key == RcHandle(s, env, req).1.reply.key
    ensures DeleteHandle(RcHandle(s, env, req).0, del) == (s, Status(CB_OK))
  {
    RcHandleStep(s, env, req);
    var name := CString(req.name);
    assert s.qps[name := RcHandle(s, env, req).0.qps[name]] - {name} == s.qps;
  }

  lemma MarshalledReply(r: RCReply, payload: seq<byte>)
    requires payload == DumpRCReply(r)
    ensures ParseRCReply(payload) == Some(r)
  {
    RCReplyRoundTrip(r, []);
    assert DumpRCReply(r) + [] == DumpRCReply(r);
  }

  /** The creation handler on bytes: too few are a wrong argument; a reply is what its bytes read back as. */
  lemma RcHandlerBytes(s: Ctrl, env: Env, b: seq<byte>)
    ensures var (s', out) := RcHandler(s, env, b);
            if |b| < 246 then
              s' == s && out.Returns? && ParseRCReply(out.reply) == Some(RCReply(3, NO_ATTR, 0))
            else
              var (t, res) := RcHandle(s, env, ParseRCReq(b).value);
              && s' == t && (res.Threw? <==> out.Raises?) && !out.Aborts?
              && (res.Answered? ==> ParseRCReply(out.reply) == Some(res.reply))
  {
    if |b| < 246 {
      MarshalledReply(Status(CB_WRONG_ARG), DumpRCReply(Status(CB_WRONG_ARG)));
    } else {
      MarshalIs(RcHandle(s, env, ParseRCReq(b).value).1);
    }
  }

  lemma MarshalIs(res: RcResult)
    ensures (res.Threw? <==> Marshal(res).Raises?) && !Marshal(res).Aborts?
    ensures res.Answered? ==> ParseRCReply(Marshal(res).reply) == Some(res.reply)
  {
    if res.Answered? {
      MarshalledReply(res.reply, DumpRCReply(res.reply));
    }
  }

  /** The deletion handler on bytes: 72 of them name a binding and its key, the reply reads back as the outcome. */
  lemma DeleteRcBytes(s: Ctrl, env: Env, b: seq<byte>)
    ensures var (s', out) := DeleteRc(s, env, b);
            && out.Returns? && s'.nics == s.nics
            && if |b| < 72 then
                 s' == s && ParseRCReply(out.reply) == Some(RCReply(3, NO_ATTR, 0))
               else
                 var name, key := CString(b[..64]), FromLE(b[64..72]);
                 var there := name in s.qps && s.qps[name].1 == key;
                 && ParseRCReply(out.reply) == Some(RCReply(if there then 0 else 3, NO_ATTR, 0))
                 && s'.qps == if there then s.qps - {name} else s.qps
  {
    if |b| < 72 {
      MarshalledReply(Status(CB_WRONG_ARG), DumpRCReply(Status(CB_WRONG_ARG)));
    } else {
      DelReqLayout(b);
      var del := ParseDelReq(b).value;
      DeleteStep(s, del);
      DeletedQps(s, del);
      var reply := DeleteHandle(s, del).1;
      MarshalledReply(reply, DumpRCReply(reply));
    }
  }

  lemma DeletedQps(s: Ctrl, req: DelRCReq)
    ensures var (s', reply) := DeleteHandle(s, req);
            s'.qps == if reply.status == 0 then s.qps - {CString(req.name)} else s.qps
  {
  }

  datatype CtrlCall = Create(env: Env, b: seq<byte>) | Delete(env: Env, b: seq<byte>)

  function StepCtrl(s: Ctrl, c: CtrlCall): Ctrl {
    match c
    case Create(env, b) => RcHandler(s, env, b).0
    case Delete(env, b) => DeleteRc(s, env, b).0
  }

  function RunCtrl(s: Ctrl, calls: seq<CtrlCall>): Ctrl {
    if calls == [] then s else StepCtrl(RunCtrl(s, calls[..|calls| - 1]), calls[|calls| - 1])
  }

  /** Every binding is usable: its queue pair is in RTS with a recorded peer, and its key is nonzero. */
  ghost predicate AllUsable(s: Ctrl) {
    forall n | n in s.qps :: s.qps[n].0.state == RTS && s.qps[n].0.target.Some? && s.qps[n].1 != 0
  }

  lemma StepCtrlUsable(s: Ctrl, c: CtrlCall)
    requires AllUsable(s)
    ensures AllUsable(StepCtrl(s, c)) && StepCtrl(s, c).nics == s.nics
  {
    if c.Create? && ParseRCReq(c.b).Some? {
      RcHandleStep(s, c.env, ParseRCReq(c.b).value);
    }
  }

  lemma {:induction false} RegistryRuns(s: Ctrl, calls: seq<CtrlCall>)
    requires AllUsable(s)
    ensures AllUsable(RunCtrl(s, calls)) && RunCtrl(s, calls).nics == s.nics
  {
    if calls != [] {
      RegistryRuns(s, calls[..|calls| - 1]);
      StepCtrlUsable(RunCtrl(s, calls[..|calls| - 1]), calls[|calls| - 1]);
    }
  }

  // ------------------------------------------------------------ the daemon

  class RCtrl {
    const openedNics: Factory<u64, Nic>
    const registeredQps: Factory<Name, RC>

    constructor ()
      ensures fresh(openedNics) && fresh(registeredQps)
      ensures openedNics.store == map[] && registeredQps.store == map[]
    {
      openedNics := new Factory();
      registeredQps := new Factory();
    }

    /** The daemon's state as a value: the queue pairs behind the registered pointers. */
    ghost function View(): Ctrl
      reads openedNics, registeredQps, set n | n in registeredQps.store :: registeredQps.store[n].0
    {
      Ctrl(map i | i in openedNics.store :: openedNics.store[i].0,
           map n | n in registeredQps.store :: (registeredQps.store[n].0.qp, registeredQps.store[n].1))
    }

    method FetchAttr(name: Name, key: u64) returns (reply: RCReply)
      ensures reply == FetchQpAttr(View().qps, name, key)
      ensures reply == if name in registeredQps.store then RCReply(0, MyAttr(registeredQps.store[name].0.qp), key)
                       else RCReply(2, NO_ATTR, 0)
    {
      var rc := registeredQps.Query(name);
      if rc.Some? {
        return RCReply(CB_OK, MyAttr(rc.value.qp), key);
      }
      return Status(CB_NOT_FOUND);
    }

    /** Take the name, connect, and give the name back when connecting fails. */
    method Bind(name: Name, q: Qp, peer: QPAttr, env: Env) returns (key: Option<nat>)
      modifies registeredQps
      ensures var s := old(View());
              var (q', ok) := ConnectQp(q, peer, env.dev);
              if name in s.qps || !ok then key.None? && View() == s
              else key == Some(FirstNonZero(env.draws)) && View() == s.(qps := s.qps[name := (q', key.value)])
    {
      ghost var s := View();
      var rc;
      key, rc := Enter(name, q, peer, env);
      assert View().qps == if key.None? then s.qps else s.qps[name := (rc.qp, key.value)];
    }

    /** The same on the table of pointers. */
    method Enter(name: Name, q: Qp, peer: QPAttr, env: Env) returns (key: Option<nat>, rc: RC)
      modifies registeredQps
      ensures fresh(rc)
      ensures var (q', ok) := ConnectQp(q, peer, env.dev);
              if name in old(registeredQps.store) || !ok then
                key.None? && registeredQps.store == old(registeredQps.store)
              else
                && key == Some(FirstNonZero(env.draws)) && rc.qp == q'
                && registeredQps.store == old(registeredQps.store)[name := (rc, key.value)]
    {
      ghost var before := registeredQps.store;
      rc := new RC(q);
      key := registeredQps.Reg(name, rc, env.draws);
      if key.Some? {
        var ok := rc.Connect(peer, env.dev);
        if !ok {
          var _ := registeredQps.Dereg(name, key.value);
          assert before[name := (rc, key.value)] - {name} == before;
          key := None;
        }
      }
    }

    method HandleReq(env: Env, req: RCReq) returns (res: RcResult)
      modifies registeredQps
      ensures (View(), res) == RcHandle(old(View()), env, req)
    {
      ghost var s := View();
      var name := CString(req.name);
      if !(req.whetherCreate == 1 || req.whetherCreate != 0) {
        return Answered(Status(CB_WRONG_ARG));
      }
      var key: nat := 0;
      if req.whetherCreate == 1 {
        var nic := openedNics.Query(req.nicId);
        if nic.None? {
          return Answered(Status(CB_WRONG_ARG));
        }
        assert s.nics[req.nicId] == nic.value;
        var q := CreateQp(nic.value, req.config, env.dev);
        if q.None? {
          return Threw;
        }
        var status := Bind(name, q.value, req.attr, env);
        if status.None? {
          return Answered(Status(CB_WRONG_ARG));
        }
        key := status.value;
      }
      var reply := FetchAttr(name, key);
      return Answered(reply);
    }

    /** `rc_handler`. */
    method HandleRc(env: Env, b: seq<byte>) returns (res: Rpc.HandlerResult)
      modifies registeredQps
      ensures (View(), res) == RcHandler(old(View()), env, b)
    {
      var o := ParseRCReq(b);
      if o.None? {
        return Rpc.Returns(DumpRCReply(Status(CB_WRONG_ARG)));
      }
      var r := HandleReq(env, o.value);
      return Marshal(r);
    }

    /** `delete_rc`. */
    method HandleDelete(env: Env, b: seq<byte>) returns (res: Rpc.HandlerResult)
      modifies registeredQps
      ensures (View(), res) == DeleteRc(old(View()), env, b)
    {
      ghost var s := View();
      var o := ParseDelReq(b);
      if o.None? {
        return Rpc.Returns(DumpRCReply(Status(CB_WRONG_ARG)));
      }
      var name := CString(o.value.name);
      var removed := registeredQps.Dereg(name, o.value.key);
      if removed.None? {
        assert View() == s;
        return Rpc.Returns(DumpRCReply(Status(CB_WRONG_ARG)));
      }
      assert View().qps == s.qps - {name};
      return Rpc.Returns(DumpRCReply(Status(CB_OK)));
    }
  }
}
