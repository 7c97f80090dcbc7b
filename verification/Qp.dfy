/**
  RC queue pairs as far as connecting is concerned: the states RESET, INIT, RTR
  and RTS, and the attributes that the two transitions record.  A device
  transition succeeds only from the state before it and may then still fail.
*/
module Qps {
  import opened Bytes

  datatype QPConfig = QPConfig(
    accessFlags: u32, maxRdAtomic: u32, maxDestRdAtomic: u32, rqPsn: u32, sqPsn: u32,
    timeout: u32, maxSendSize: u32, maxRecvSize: u32, qkey: u32, dcKey: u32)

  datatype QPAttr = QPAttr(
    subnetPrefix: u64, interfaceId: u64, localId: u32, lid: u64, psn: u64, portId: u64, qpn: u64, qkey: u64)

  const NO_ATTR := QPAttr(0, 0, 0, 0, 0, 0, 0, 0)

  datatype Nic = Nic(subnetPrefix: u64, interfaceId: u64, localId: u32, lid: u64, portId: u64)

  datatype QpState = RESET | INIT | RTR | RTS

  /** The remote end that a queue pair sends to: 32-bit number, 16-bit lid, 128-bit gid. */
  datatype Target = Target(qpn: u32, lid: int, subnetPrefix: u64, interfaceId: u64)

  datatype Qp = Qp(
    num: u64, nic: Nic, config: QPConfig, state: QpState,
    target: Option<Target>, expectedPsn: u32, sendPsn: u32)

  function TargetOf(a: QPAttr): Target {
    Target(a.qpn % 0x1_0000_0000, a.lid % 0x1_0000, a.subnetPrefix, a.interfaceId)
  }

  /** A 32-bit `int` cast to u64. */
  function SignExtend(x: u32): u64 {
    if x < 0x8000_0000 then x else x + 0xFFFF_FFFF_0000_0000
  }

  /** `RC::my_attr`: the PSN offered to the peer is the configured receive PSN. */
  function MyAttr(q: Qp): QPAttr {
    QPAttr(q.nic.subnetPrefix, q.nic.interfaceId, q.nic.localId, q.nic.lid,
           SignExtend(q.config.rqPsn), q.nic.portId, q.num, 0)
  }

  /** What the device answers to the verbs calls of one create-and-connect. */
  datatype Device = Device(created: Option<u64>, initOk: bool, rtrOk: bool, rtsOk: bool)

  /** `RC::create`: a failed transition to INIT is only logged. */
  function CreateQp(nic: Nic, config: QPConfig, dev: Device): Option<Qp> {
    if dev.created.None? then None
    else Some(Qp(dev.created.value, nic, config, if dev.initOk then INIT else RESET, None, 0, 0))
  }

  function BringToRcv(q: Qp, a: QPAttr, dev: Device): Option<Qp> {
    if q.state == INIT && dev.rtrOk
    then Some(q.(state := RTR, target := Some(TargetOf(a)), expectedPsn := q.config.rqPsn))
    else None
  }

  function BringToSend(q: Qp, dev: Device): Option<Qp> {
    if q.state == RTR && dev.rtsOk then Some(q.(state := RTS, sendPsn := q.config.sqPsn)) else None
  }

  /** `RC::connect`: a queue pair already in RTS is left alone and reported as connected. */
  function ConnectQp(q: Qp, a: QPAttr, dev: Device): (r: (Qp, bool))
  {
    if q.state == RTS then (q, true)
    else
      var rcv := BringToRcv(q, a, dev);
      if rcv.None? then (q, false)
      else
        var snd := BringToSend(rcv.value, dev);
        if snd.None? then (rcv.value, false) else (snd.value, true)
  }

  /** The queue pair sends to number `qpn` at this port. */
  predicate Aims(q: Qp, qpn: u64, lid: u64, subnetPrefix: u64, interfaceId: u64) {
    && q.target.Some?
    && q.target.value.qpn == qpn % 0x1_0000_0000 && q.target.value.lid == lid % 0x1_0000
    && q.target.value.subnetPrefix == subnetPrefix && q.target.value.interfaceId == interfaceId
  }

  /** The queue pair sends to `p`, by `p`'s own number and port. */
  predicate AimsAt(q: Qp, p: Qp) {
    Aims(q, p.num, p.nic.lid, p.nic.subnetPrefix, p.nic.interfaceId)
  }

  /** A queue pair reaches RTS only through INIT and RTR, and then records its target and both PSNs. */
  predicate Connected(q: Qp, a: QPAttr) {
    && q.state == RTS
    && Aims(q, a.qpn, a.lid, a.subnetPrefix, a.interfaceId)
    && q.expectedPsn == q.config.rqPsn
    && q.sendPsn == q.config.sqPsn
  }

  /** A queue pair offers its own number and port, no qkey, and its receive PSN as a sign-extended 32-bit number. */
  lemma OfferedAttr(p: Qp)
    ensures var a := MyAttr(p);
            && a.qpn == p.num && a.lid == p.nic.lid && a.portId == p.nic.portId && a.localId == p.nic.localId
            && a.subnetPrefix == p.nic.subnetPrefix && a.interfaceId == p.nic.interfaceId && a.qkey == 0
            && a.psn % 0x1_0000_0000 == p.config.rqPsn
            && (a.psn < 0x8000_0000 || a.psn >= 0xFFFF_FFFF_8000_0000)
  {
  }

  /** Connecting `q` to what `p` offers makes it send to `p`. */
  lemma ConnectAims(q: Qp, p: Qp, dev: Device)
    requires q.state != RTS && ConnectQp(q, MyAttr(p), dev).1
    ensures AimsAt(ConnectQp(q, MyAttr(p), dev).0, p)
  {
    OfferedAttr(p);
    ConnectOutcome(q, MyAttr(p), dev);
  }

  /** Connecting succeeds with the given peer exactly from INIT with both transitions accepted. */
  lemma ConnectOutcome(q: Qp, a: QPAttr, dev: Device)
    ensures var (q', ok) := ConnectQp(q, a, dev);
            && q'.num == q.num && q'.nic == q.nic && q'.config == q.config
            && (ok <==> q.state == RTS || (q.state == INIT && dev.rtrOk && dev.rtsOk))
            && (ok && q.state != RTS ==> Connected(q', a))
            && (q.state == RTS ==> q' == q)
            && (!ok && !(q.state == INIT && dev.rtrOk) ==> q' == q)
            && (!ok && q.state == INIT && dev.rtrOk ==>
                  && q'.state == RTR && Aims(q', a.qpn, a.lid, a.subnetPrefix, a.interfaceId)
                  && q'.expectedPsn == q.config.rqPsn && q'.sendPsn == q.sendPsn)
  {
  }

  /** Once connected, later connects to other peers report success and change nothing. */
  lemma ReconnectKeepsPeer(q: Qp, a: QPAttr, b: QPAttr, dev1: Device, dev2: Device)
    requires q.state != RTS && ConnectQp(q, a, dev1).1
    ensures ConnectQp(ConnectQp(q, a, dev1).0, b, dev2) == (ConnectQp(q, a, dev1).0, true)
    ensures Connected(ConnectQp(q, a, dev1).0, a)
  {
  }

  /** A connect that failed after RTR can never be completed by another connect. */
  lemma HalfConnectedIsStuck(q: Qp, a: QPAttr, dev1: Device, b: QPAttr, dev2: Device)
    requires q.state == INIT && dev1.rtrOk && !dev1.rtsOk
    ensures var q' := ConnectQp(q, a, dev1).0;
            q'.state == RTR && ConnectQp(q', b, dev2) == (q', false)
  {
  }

  class RC {
    var qp: Qp

    constructor (qp: Qp)
      ensures this.qp == qp
    {
      this.qp := qp;
    }

    method Connect(a: QPAttr, dev: Device) returns (ok: bool)
      modifies this
      ensures (qp, ok) == ConnectQp(old(qp), a, dev)
    {
      if qp.state == RTS {
        return true;
      }
      var rcv := BringToRcv(qp, a, dev);
      if rcv.None? {
        return false;
      }
      qp := rcv.value;
      var snd := BringToSend(qp, dev);
      if snd.None? {
        return false;
      }
      qp := snd.value;
      return true;
    }
  }
}
