/**
  The handler that creates a queue pair ready to receive: the creation handler
  of the control daemon, followed by building, registering and posting a ring.
*/
module RecvManagers {
  import opened Bytes
  import opened Qps
  import opened Proto
  import opened Registry
  import opened RecvRing
  import opened RecvFactory
  import Rpc = SRpcs

  /** A registered receive endpoint: the channel's buffer allocator. */
  class RecvCommon {
    const allocator: SimpleAllocator

    constructor (allocator: SimpleAllocator)
      ensures this.allocator == allocator
    {
      this.allocator := allocator;
    }
  }

  /** The 64-bit size of the request, passed where a 32-bit one is taken. */
  function Narrow(n: u64): u32 {
    n % 0x1_0000_0000
  }

  datatype MsgResult = Answer(reply: RCReply) | Exception | Abort

  /** The creation handler of the daemon adds a binding for this request. */
  predicate Creates(s: Ctrl, env: Env, req: RCReq) {
    RcHandle(s, env, req).0 != s
  }

  // ------------------------------------------------- the handler on values

  /** A registered ring: the size of its buffers, and how many entries the device was handed at its creation. */
  datatype Ring = Ring(bufSz: u32, posted: nat)

  /** The registry of the daemon, the rings by name, and the number of entries of a ring. */
  datatype Manager = Manager(ctrl: Ctrl, rings: map<Name, Ring>, r: nat)

  /** What a call meets: random draws and device answers, whether the buffers fit, and the room in the receive queue. */
  datatype MsgEnv = MsgEnv(env: Env, canBuild: bool, room: nat)

  function MsgResultOf(r: RcResult): MsgResult {
    if r.Threw? then Exception else Answer(r.reply)
  }

  /** The ring that a request gets. */
  function RingFor(req: RCReq, r: nat, room: nat): Ring {
    Ring(Narrow(req.maxRecvSz), if room < r then room else r)
  }

  function MsgHandle(s: Manager, e: MsgEnv, req: RCReq): (r: (Manager, MsgResult))
  {
    var (ctrl, plain) := RcHandle(s.ctrl, e.env, req);
    var name := CString(req.name);
    if !Creates(s.ctrl, e.env, req) then (s.(ctrl := ctrl), MsgResultOf(plain))
    else if !e.canBuild then (s.(ctrl := ctrl), Exception)
    else if name in s.rings then (s.(ctrl := ctrl), Abort)
    else (s.(ctrl := ctrl, rings := s.rings[name := RingFor(req, s.r, e.room)]),
          if e.room < s.r then Abort else MsgResultOf(plain))
  }

  /**
    A creation that binds the name is answered with buffers of the requested size
    if and only if that size is below 2^32; one of exactly 2^32 is answered with
    empty buffers.
  */
  lemma RequestedSizeIff(s: Manager, e: MsgEnv, req: RCReq)
    requires Creates(s.ctrl, e.env, req) && MsgHandle(s, e, req).1.Answer?
    ensures var name, s' := CString(req.name), MsgHandle(s, e, req).0;
            && name in s'.rings && s'.rings[name].posted == s.r
            && (s'.rings[name].bufSz == req.maxRecvSz <==> req.maxRecvSz < 0x1_0000_0000)
            && (req.maxRecvSz == 0x1_0000_0000 ==> s'.rings[name].bufSz == 0)
  {
    NarrowExactIff(req.maxRecvSz);
  }

  lemma NarrowExactIff(n: u64)
    ensures Narrow(n) == n <==> n < 0x1_0000_0000
    ensures (n - Narrow(n)) % 0x1_0000_0000 == 0
  {
  }

  /**
    Everything a decoded message creation can end in.  The registry always moves as
    for the plain creation; a binding once added stays whatever happens to the ring.
  */
  lemma MsgOutcome(s: Manager, e: MsgEnv, req: RCReq)
    ensures var ((s', res), (ctrl, plain)) := (MsgHandle(s, e, req), RcHandle(s.ctrl, e.env, req));
            var name := CString(req.name);
            && s'.ctrl == ctrl && s'.r == s.r
            && (ctrl == s.ctrl ==>
                  && s'.rings == s.rings && (res.Exception? <==> plain.Threw?)
                  && (plain.Answered? ==> res == Answer(plain.reply)))
            && (ctrl != s.ctrl ==>
                  && name in ctrl.qps
                  && (res.Exception? <==> !e.canBuild)
                  && (res.Abort? <==> e.canBuild && (name in s.rings || e.room < s.r))
                  && (res.Answer? ==> plain == Answered(res.reply))
                  && s'.rings == if !e.canBuild || name in s.rings then s.rings
                                 else s.rings[name := Ring(req.maxRecvSz % 0x1_0000_0000,
                                 if e.room < s.r then e.room else s.r)])
  {
    RcHandleStep(s.ctrl, e.env, req);
  }

  function MarshalMsg(res: MsgResult): Rpc.HandlerResult {
    match res
    case Answer(reply) => Rpc.Returns(DumpRCReply(reply))
    case Exception => Rpc.Raises
    case Abort => Rpc.Aborts
  }

  function MsgHandler(s: Manager, e: MsgEnv, b: seq<byte>): (r: (Manager, Rpc.HandlerResult))
  {
    match ParseRCReq(b)
    case None => (s, Rpc.Returns(DumpRCReply(Status(CB_WRONG_ARG))))
    case Some(req) =>
      var (s', res) := MsgHandle(s, e, req);
      (s', MarshalMsg(res))
  }

  /** The handler on bytes: too few are a wrong argument, and each outcome is passed on as such. */
  lemma MsgHandlerBytes(s: Manager, e: MsgEnv, b: seq<byte>)
    ensures var (s', out) := MsgHandler(s, e, b);
            if |b| < 246 then
              s' == s && out.Returns? && ParseRCReply(out.reply) == Some(RCReply(3, NO_ATTR, 0))
            else
              var (t, res) := MsgHandle(s, e, ParseRCReq(b).value);
              && s' == t && (res.Exception? <==> out.Raises?) && (res.Abort? <==> out.Aborts?)
              && (res.Answer? ==> ParseRCReply(out.reply) == Some(res.reply))
  {
    if |b| < 246 {
      MarshalledReply(Status(CB_WRONG_ARG), DumpRCReply(Status(CB_WRONG_ARG)));
    } else {
      var res := MsgHandle(s, e, ParseRCReq(b).value).1;
      if res.Answer? {
        MarshalledReply(res.reply, DumpRCReply(res.reply));
      }
    }
  }

  datatype ManagerCall = CreateMsg(e: MsgEnv, req: RCReq) | CreatePlain(env: Env, req: RCReq) | Remove(del: DelRCReq)

  function StepManager(s: Manager, c: ManagerCall): Manager {
    match c
    case CreateMsg(e, req) => MsgHandle(s, e, req).0
    case CreatePlain(env, req) => s.(ctrl := RcHandle(s.ctrl, env, req).0)
    case Remove(del) => s.(ctrl := DeleteHandle(s.ctrl, del).0)
  }

  function RunManager(s: Manager, calls: seq<ManagerCall>): Manager {
    if calls == [] then s else StepManager(RunManager(s, calls[..|calls| - 1]), calls[|calls| - 1])
  }

  /** Nothing ever removes or replaces a ring, deleting the queue pair included. */
  lemma {:induction false} RingsStay(s: Manager, calls: seq<ManagerCall>)
    ensures var later := RunManager(s, calls);
            later.r == s.r && forall n | n in s.rings :: n in later.rings && later.rings[n] == s.rings[n]
  {
    if calls != [] {
      RingsStay(s, calls[..|calls| - 1]);
    }
  }

  /** This call binds the name and gets as far as registering a ring for it. */
  predicate TakesRing(s: Manager, c: ManagerCall, name: Name) {
    c.CreateMsg? && CString(c.req.name) == name && Creates(s.ctrl, c.e.env, c.req) && c.e.canBuild
  }

  ghost predicate RingTaken(s: Manager, calls: seq<ManagerCall>, name: Name) {
    exists i: nat :: i < |calls| && TakesRing(RunManager(s, calls[..i]), calls[i], name)
  }

  lemma StepRings(s: Manager, c: ManagerCall, name: Name)
    ensures name in StepManager(s, c).rings <==> name in s.rings || TakesRing(s, c, name)
  {
  }

  /** After any calls a name has a ring if and only if it had one or some call took one for it. */
  lemma {:induction false} HasRingIff(s: Manager, calls: seq<ManagerCall>, name: Name)
    ensures name in RunManager(s, calls).rings <==> name in s.rings || RingTaken(s, calls, name)
  {
    if calls != [] {
      var k := |calls| - 1;
      HasRingIff(s, calls[..k], name);
      StepRings(RunManager(s, calls[..k]), calls[k], name);
      TakenStep(s, calls, calls[..k], name);
    }
  }

  lemma TakenStep(s: Manager, calls: seq<ManagerCall>, init: seq<ManagerCall>, name: Name)
    requires calls != [] && init == calls[..|calls| - 1]
    ensures RingTaken(s, calls, name) <==>
              RingTaken(s, init, name) || TakesRing(RunManager(s, init), calls[|calls| - 1], name)
  {
    assert forall i: nat | i <= |init| :: calls[..|calls| - 1][..i] == calls[..i];
    assert forall i: nat | i < |init| :: init[i] == calls[i];
    if RingTaken(s, init, name) {
      var i: nat :| i < |init| && TakesRing(RunManager(s, init[..i]), init[i], name);
      assert TakesRing(RunManager(s, calls[..i]), calls[i], name);
    }
    if RingTaken(s, calls, name) {
      var i: nat :| i < |calls| && TakesRing(RunManager(s, calls[..i]), calls[i], name);
      assert i < |init| ==> TakesRing(RunManager(s, init[..i]), init[i], name);
    }
  }

  /**
    When a message creation that binds its name is answered, after any calls:
    if and only if its ring can be built and posted and the name never had a ring,
    neither at the start nor through any earlier call, deleted or not.
  */
  lemma AnsweredIff(s: Manager, calls: seq<ManagerCall>, e: MsgEnv, req: RCReq)
    requires Creates(RunManager(s, calls).ctrl, e.env, req)
    ensures MsgHandle(RunManager(s, calls), e, req).1.Answer? <==>
              && e.canBuild && s.r <= e.room
              && CString(req.name) !in s.rings && !RingTaken(s, calls, CString(req.name))
  {
    RingsStay(s, calls);
    HasRingIff(s, calls, CString(req.name));
    RcHandleStep(RunManager(s, calls).ctrl, e.env, req);
  }

  /**
    A name works once.  After a creation that posted a ring, and any further calls
    -- deleting the queue pair among them -- another creation under that name that
    gets as far as binding it ends in an exception or in an abort.
  */
  lemma NameWorksOnce(s: Manager, e: MsgEnv, req: RCReq, calls: seq<ManagerCall>, e': MsgEnv, req': RCReq)
    requires Creates(s.ctrl, e.env, req) && MsgHandle(s, e, req).1.Answer?
    requires CString(req'.name) == CString(req.name)
    ensures var later := RunManager(MsgHandle(s, e, req).0, calls);
            Creates(later.ctrl, e'.env, req') ==>
              MsgHandle(later, e', req').1 == if e'.canBuild then Abort else Exception
  {
    RcHandleStep(s.ctrl, e.env, req);
    RingsStay(MsgHandle(s, e, req).0, calls);
  }

  /** Create, delete with the returned key, create again: the daemon aborts as soon as the second one could succeed. */
  lemma RecreateAborts(s: Manager, e: MsgEnv, req: RCReq, del: DelRCReq, e': MsgEnv)
    requires Creates(s.ctrl, e.env, req) && MsgHandle(s, e, req).1.Answer?
    requires CString(del.name) == CString(req.name) && del.key == MsgHandle(s, e, req).1.reply.key
    requires e'.env.dev == e.env.dev && e'.canBuild
    ensures var again := StepManager(MsgHandle(s, e, req).0, Remove(del));
            again.ctrl == s.ctrl && MsgHandle(again, e', req).1 == Abort
  {
    RcHandleStep(s.ctrl, e.env, req);
    CreateThenDelete(s.ctrl, e.env, req, del);
    RcHandleSucceedsIff(s.ctrl, e.env, req);
    RcHandleSucceedsIff(s.ctrl, e'.env, req);
  }

  // ------------------------------------------------------------- the object

  predicate Creating(req: RCReq, reply: RCReply) {
    req.whetherCreate == 1 && reply.status == CB_OK
  }

  /** The code asks its own reply whether it is creating; that is exactly when a binding was added. */
  lemma CreatesIff(s: Ctrl, env: Env, req: RCReq)
    ensures var r := RcHandle(s, env, req).1;
            Creates(s, env, req) <==> r.Answered? && Creating(req, r.reply)
  {
    RcHandleStep(s, env, req);
  }

  /** The rings and the answer once the registry has answered `reply`. */
  function Attached(rings: map<Name, Ring>, r: nat, canBuild: bool, room: nat, req: RCReq, reply: RCReply)
    : (res: (map<Name, Ring>, MsgResult))
  {
    var name := CString(req.name);
    if !Creating(req, reply) then (rings, Answer(reply))
    else if !canBuild then (rings, Exception)
    else if name in rings then (rings, Abort)
    else (rings[name := RingFor(req, r, room)], if room < r then Abort else Answer(reply))
  }

  lemma AttachedIs(s: Manager, e: MsgEnv, req: RCReq, ctrl: Ctrl, reply: RCReply)
    requires RcHandle(s.ctrl, e.env, req) == (ctrl, Answered(reply))
    ensures var (rings, res) := Attached(s.rings, s.r, e.canBuild, e.room, req, reply);
            MsgHandle(s, e, req) == (Manager(ctrl, rings, s.r), res)
  {
    CreatesIff(s.ctrl, e.env, req);
  }

  /** An intact ring of `n` entries, each on a buffer of its own of `sz` bytes. */
  ghost predicate BuiltRing(ring: RecvEntries, n: nat, sz: u32)
    reads ring, ring.rs, ring.sges
  {
    && ring.Valid() && ring.rs.Length == n
    && exists base: nat, key: nat :: BuiltUpTo(ring.rs[..], ring.sges[..], n, base, sz, key)
  }

  class RecvManager {
    const rctrl: RCtrl
    const regRecvCqs: Factory<Name, RecvCommon>
    const regRecvEntries: Factory<Name, RecvEntries>
    const R: nat
    ghost var rings: map<Name, Ring>

    constructor (rctrl: RCtrl, r: nat)
      requires 0 < r <= 2048
      ensures Valid() && this.rctrl == rctrl && R == r
      ensures fresh(regRecvCqs) && fresh(regRecvEntries)
      ensures regRecvCqs.store == map[] && regRecvEntries.store == map[]
    {
      this.rctrl, R := rctrl, r;
      regRecvCqs := new Factory();
      regRecvEntries := new Factory();
      rings := map[];
    }

    ghost predicate Valid()
      reads this, regRecvEntries
    {
      0 < R <= 2048 && rings.Keys == regRecvEntries.store.Keys
    }

    /** The ring built for this request can be allocated from the channel named in it. */
    ghost predicate CanBuild(req: RCReq)
      reads regRecvCqs, set n | n in regRecvCqs.store :: regRecvCqs.store[n].0.allocator
    {
      var ch := CString(req.nameRecv);
      ch in regRecvCqs.store && R * Narrow(req.maxRecvSz) <= regRecvCqs.store[ch].0.allocator.totalMem
    }

    /** A ring over buffers of the channel named in the request, of its size narrowed to 32 bits. */
    method BuildRing(req: RCReq) returns (ring: Option<RecvEntries>)
      requires Valid()
      modifies set n | n in regRecvCqs.store :: regRecvCqs.store[n].0.allocator
      ensures ring.Some? <==> old(CanBuild(req))
      ensures ring.Some? <==>
                var ch := CString(req.nameRecv);
                && ch in regRecvCqs.store
                && R * (req.maxRecvSz % 0x1_0000_0000) <= old(regRecvCqs.store[ch].0.allocator.totalMem)
      ensures ring.Some? ==>
                && fresh(ring.value) && fresh(ring.value.rs) && fresh(ring.value.sges)
                && ring.value.header == 0 && BuiltRing(ring.value, R, Narrow(req.maxRecvSz))
    {
      var ch := regRecvCqs.Query(CString(req.nameRecv));
      if ch.None? {
        return None;
      }
      ring := CreateRing(ch.value.allocator, R, Narrow(req.maxRecvSz));
    }

    /** Steps 1.3 and 1.4 of the handler: build the ring from the named channel, register it, post all of it. */
    method AddRing(name: Name, req: RCReq, draws: Draws, qp: RecvQp, room: nat) returns (failed: Option<MsgResult>)
      requires Valid() && qp.posted == []
      modifies `rings, regRecvEntries, qp`posted, set n | n in regRecvCqs.store :: regRecvCqs.store[n].0.allocator
      ensures Valid()
      ensures failed == if !old(CanBuild(req)) then Some(Exception)
                        else if name in old(rings) || room < R then Some(Abort)
                        else None
      ensures rings == if old(CanBuild(req)) && name !in old(rings) then old(rings)[name := RingFor(req, R, room)]
                       else old(rings)
      ensures failed.None? ==> Equipped(old(regRecvEntries.store), name, qp, Narrow(req.maxRecvSz))
    {
      var ring := BuildRing(req);
      if ring.None? {
        return Some(Exception);
      }
      var registered := regRecvEntries.Reg(name, ring.value, draws);
      if registered.None? {
        return Some(Abort);
      }
      rings := rings[name := RingFor(req, R, room)];
      ghost var rs, sges := ring.value.rs[..], ring.value.sges[..];
      ghost var base: nat, key: nat :| BuiltUpTo(rs, sges, R, base, Narrow(req.maxRecvSz), key);
      var ok := PostRecvs(qp, ring.value, R, room);
      assert ok ==> ring.value.rs[..] == rs && ring.value.sges[..] == sges;
      return if ok then None else Some(Abort);
    }

    /**
      The name, and no other since `before`, has got a ring of R entries over
      buffers of `sz` bytes, and the device holds each entry once, from entry 0.
    */
    ghost predicate Equipped(before: map<Name, (RecvEntries, nat)>, name: Name, qp: RecvQp, sz: u32)
      reads this, regRecvEntries, qp, set n | n in regRecvEntries.store :: regRecvEntries.store[n].0,
            set n | n in regRecvEntries.store :: regRecvEntries.store[n].0.rs,
            set n | n in regRecvEntries.store :: regRecvEntries.store[n].0.sges
    {
      var store := regRecvEntries.store;
      && name !in before && name in store && store == before[name := store[name]]
      && store[name].0.header == 0 && BuiltRing(store[name].0, R, sz)
      && qp.posted == PostedOf(store[name].0.rs[..], Circ(0, R, R))
    }

    ghost function View(): Manager
      reads this, rctrl.openedNics, rctrl.registeredQps,
            set n | n in rctrl.registeredQps.store :: rctrl.registeredQps.store[n].0
    {
      Manager(rctrl.View(), rings, R)
    }

    /**
      `msg_rc_handler` on a decoded request.  The object answers as the handler on
      values does.  The registry moves exactly as in the daemon's own creation
      handler; if a binding was added and the answer is not a success, the binding
      is left behind, and on success the name has a ring whose R entries are all
      posted, over buffers of the requested size narrowed to 32 bits.
    */
    method HandleMsgReq(env: Env, req: RCReq, qp: RecvQp, room: nat) returns (res: MsgResult)
      requires Valid() && qp.posted == []
      modifies `rings, rctrl.registeredQps, regRecvEntries, qp`posted,
               set n | n in regRecvCqs.store :: regRecvCqs.store[n].0.allocator
      ensures Valid()
      ensures (View(), res) == MsgHandle(old(View()), MsgEnv(env, old(CanBuild(req)), room), req)
      ensures Creates(old(rctrl.View()), env, req) && res.Answer? ==>
                Equipped(old(regRecvEntries.store), CString(req.name), qp, Narrow(req.maxRecvSz))
    {
      ghost var s, canBuild := View(), CanBuild(req);
      var r := rctrl.HandleReq(env, req);
      CreatesIff(s.ctrl, env, req);
      if r.Threw? {
        return Exception;
      }
      ghost var ctrl := rctrl.View();
      res := Attach(env.draws, req, r.reply, qp, room);
      AttachedIs(s, MsgEnv(env, canBuild, room), req, ctrl, r.reply);
    }

    /** The ring for the request in these bytes, if they hold one, can be allocated. */
    ghost predicate CanBuildFrom(b: seq<byte>)
      reads regRecvCqs, set n | n in regRecvCqs.store :: regRecvCqs.store[n].0.allocator
    {
      ParseRCReq(b).Some? && CanBuild(ParseRCReq(b).value)
    }

    /** `msg_rc_handler`. */
    method HandleMsg(env: Env, b: seq<byte>, qp: RecvQp, room: nat) returns (res: Rpc.HandlerResult)
      requires Valid() && qp.posted == []
      modifies `rings, rctrl.registeredQps, regRecvEntries, qp`posted,
               set n | n in regRecvCqs.store :: regRecvCqs.store[n].0.allocator
      ensures Valid()
      ensures (View(), res) == MsgHandler(old(View()), MsgEnv(env, old(CanBuildFrom(b)), room), b)
    {
      var o := ParseRCReq(b);
      if o.None? {
        return Rpc.Returns(DumpRCReply(Status(CB_WRONG_ARG)));
      }
      var answer := HandleMsgReq(env, o.value, qp, room);
      return MarshalMsg(answer);
    }

    /** The rest of the handler once the registry has answered. */
    method Attach(draws: Draws, req: RCReq, reply: RCReply, qp: RecvQp, room: nat) returns (res: MsgResult)
      requires Valid() && qp.posted == []
      modifies `rings, regRecvEntries, qp`posted, set n | n in regRecvCqs.store :: regRecvCqs.store[n].0.allocator
      ensures Valid() && rctrl.View() == old(rctrl.View())
      ensures (rings, res) == Attached(old(rings), R, old(CanBuild(req)), room, req, reply)
      ensures Creating(req, reply) && res.Answer? ==>
                Equipped(old(regRecvEntries.store), CString(req.name), qp, Narrow(req.maxRecvSz))
    {
      if Creating(req, reply) {
        var failed := AddRing(CString(req.name), req, draws, qp, room);
        if failed.Some? {
          return failed.value;
        }
      }
      return Answer(reply);
    }
  }

  /** The buffers of a ring built for a request all have its size if and only if that is below 2^32. */
  lemma BuffersSizedIff(rs: seq<RecvWr>, sges: seq<Sge>, base: nat, want: u64, key: nat)
    requires 0 < |rs| == |sges| && BuiltUpTo(rs, sges, |rs|, base, Narrow(want), key)
    ensures (forall i: nat | i < |sges| :: sges[i].length == want) <==> want < 0x1_0000_0000
    ensures want == 0x1_0000_0000 ==> forall i: nat | i < |sges| :: sges[i].length == 0
  {
    NarrowExactIff(want);
    forall i: nat | i < |sges| ensures sges[i].length == Narrow(want) {
      assert EntryBuilt(rs, sges, i, base, Narrow(want), key);
    }
    assert sges[0].length == Narrow(want);
  }
}
