/**
  The packed structs exchanged between the connect manager and the control
  daemon.  A struct is the list of its fields' bytes; reading cuts a buffer at
  the declared widths, and anything behind the struct is ignored.
*/
module Proto {
  import opened Bytes
  import opened Qps

  const NAME_SZ: nat := 64
  const MAX_NAME_LEN: nat := 63

  const CB_OK: byte := 0
  const CB_NOT_FOUND: byte := 2
  const CB_WRONG_ARG: byte := 3
  const CB_CONNECT_ERR: byte := 4

  type NameField = s: seq<byte> | |s| == NAME_SZ witness Zeros(64)

  function Field32(b: seq<byte>): (n: u32)
    requires |b| == 4
  {
    FromLEInRange(b);
    Ranges();
    FromLE(b)
  }

  function Field64(b: seq<byte>): (n: u64)
    requires |b| == 8
  {
    FromLEInRange(b);
    Ranges();
    FromLE(b)
  }

  lemma Field32RoundTrip(n: u32)
    ensures Field32(LE(n, 4)) == n
  {
    Ranges();
    FromLEOfLE(n, 4);
  }

  lemma Field64RoundTrip(n: u64)
    ensures Field64(LE(n, 8)) == n
  {
    Ranges();
    FromLEOfLE(n, 8);
  }

  // ------------------------------------------------------------ QP config

  const CONFIG_WIDTHS: seq<nat> := [4, 4, 4, 4, 4, 4, 4, 4, 4, 4]

  function ConfigFields(c: QPConfig): (p: seq<seq<byte>>)
    ensures HaveWidths(p, CONFIG_WIDTHS)
  {
    [LE(c.accessFlags, 4), LE(c.maxRdAtomic, 4), LE(c.maxDestRdAtomic, 4), LE(c.rqPsn, 4), LE(c.sqPsn, 4),
     LE(c.timeout, 4), LE(c.maxSendSize, 4), LE(c.maxRecvSize, 4), LE(c.qkey, 4), LE(c.dcKey, 4)]
  }

  function ConfigOf(p: seq<seq<byte>>): QPConfig
    requires HaveWidths(p, CONFIG_WIDTHS)
  {
    QPConfig(Field32(p[0]), Field32(p[1]), Field32(p[2]), Field32(p[3]), Field32(p[4]),
             Field32(p[5]), Field32(p[6]), Field32(p[7]), Field32(p[8]), Field32(p[9]))
  }

  lemma ConfigRoundTrip(c: QPConfig)
    ensures ConfigOf(ConfigFields(c)) == c
  {
    Field32RoundTrip(c.accessFlags);
    Field32RoundTrip(c.maxRdAtomic);
    Field32RoundTrip(c.maxDestRdAtomic);
    Field32RoundTrip(c.rqPsn);
    Field32RoundTrip(c.sqPsn);
    Field32RoundTrip(c.timeout);
    Field32RoundTrip(c.maxSendSize);
    Field32RoundTrip(c.maxRecvSize);
    Field32RoundTrip(c.qkey);
    Field32RoundTrip(c.dcKey);
  }

  // -------------------------------------------------------------- QP attr

  const ATTR_WIDTHS: seq<nat> := [8, 8, 4, 8, 8, 8, 8, 8]

  function AttrFields(a: QPAttr): (p: seq<seq<byte>>)
    ensures HaveWidths(p, ATTR_WIDTHS)
  {
    [LE(a.subnetPrefix, 8), LE(a.interfaceId, 8), LE(a.localId, 4), LE(a.lid, 8),
     LE(a.psn, 8), LE(a.portId, 8), LE(a.qpn, 8), LE(a.qkey, 8)]
  }

  function AttrOf(p: seq<seq<byte>>): QPAttr
    requires HaveWidths(p, ATTR_WIDTHS)
  {
    QPAttr(Field64(p[0]), Field64(p[1]), Field32(p[2]), Field64(p[3]),
           Field64(p[4]), Field64(p[5]), Field64(p[6]), Field64(p[7]))
  }

  lemma AttrRoundTrip(a: QPAttr)
    ensures AttrOf(AttrFields(a)) == a
  {
    Field64RoundTrip(a.subnetPrefix);
    Field64RoundTrip(a.interfaceId);
    Field32RoundTrip(a.localId);
    Field64RoundTrip(a.lid);
    Field64RoundTrip(a.psn);
    Field64RoundTrip(a.portId);
    Field64RoundTrip(a.qpn);
    Field64RoundTrip(a.qkey);
  }

  // ---------------------------------------------------------------- RCReq

  datatype RCReq = RCReq(
    name: NameField, nameRecv: NameField, whetherCreate: byte, whetherRecv: byte,
    nicId: u64, config: QPConfig, attr: QPAttr, maxRecvSz: u64)

  const HEAD_WIDTHS: seq<nat> := [NAME_SZ, NAME_SZ, 1, 1, 8]
  const RCREQ_WIDTHS: seq<nat> := HEAD_WIDTHS + CONFIG_WIDTHS + ATTR_WIDTHS + [8]
  const RCREQ_SZ: nat := 246

  lemma {:induction false} SumAppend(a: seq<nat>, b: seq<nat>)
    ensures Sum(a + b) == Sum(a) + Sum(b)
  {
    if a == [] {
      assert a + b == b;
    } else {
      SumAppend(a[1..], b);
      assert (a + b)[1..] == a[1..] + b;
    }
  }

  lemma RCReqSize()
    ensures Sum(RCREQ_WIDTHS) == RCREQ_SZ
    ensures |RCREQ_WIDTHS| == 24
  {
    assert Sum([8]) == 8;
    SumAppend(HEAD_WIDTHS + CONFIG_WIDTHS + ATTR_WIDTHS, [8]);
    SumAppend(HEAD_WIDTHS + CONFIG_WIDTHS, ATTR_WIDTHS);
    SumAppend(HEAD_WIDTHS, CONFIG_WIDTHS);
    SumConfig();
    SumAttr();
    SumHead();
  }

  lemma SumHead()
    ensures Sum(HEAD_WIDTHS) == 138
  {
    SumAppend([NAME_SZ, NAME_SZ], [1, 1, 8]);
    assert HEAD_WIDTHS == [NAME_SZ, NAME_SZ] + [1, 1, 8];
    SumAppend([1, 1], [8]);
    assert [1, 1, 8] == [1, 1] + [8];
    assert Sum([8]) == 8;
    assert Sum([1, 1]) == 1 + Sum([1, 1][1..]);
  }

  lemma SumConfig()
    ensures Sum(CONFIG_WIDTHS) == 40
  {
  }

  lemma SumAttr()
    ensures Sum(ATTR_WIDTHS) == 60
  {
  }

  function RCReqFields(r: RCReq): (p: seq<seq<byte>>)
    ensures HaveWidths(p, RCREQ_WIDTHS)
  {
    [r.name, r.nameRecv, [r.whetherCreate], [r.whetherRecv], LE(r.nicId, 8)]
    + ConfigFields(r.config) + AttrFields(r.attr) + [LE(r.maxRecvSz, 8)]
  }

  function RCReqOf(p: seq<seq<byte>>): RCReq
    requires HaveWidths(p, RCREQ_WIDTHS)
  {
    assert HaveWidths(p[5..15], CONFIG_WIDTHS) && HaveWidths(p[15..23], ATTR_WIDTHS);
    RCReq(p[0], p[1], p[2][0], p[3][0], Field64(p[4]), ConfigOf(p[5..15]), AttrOf(p[15..23]), Field64(p[23]))
  }

  function DumpRCReq(r: RCReq): (b: seq<byte>)
  {
    Join(RCReqFields(r))
  }

  lemma {:induction false} SplitWidths(b: seq<byte>, widths: seq<nat>)
    requires Sum(widths) <= |b|
    ensures HaveWidths(Split(b, widths), widths)
  {
    if widths != [] {
      SplitWidths(b[widths[0]..], widths[1..]);
    }
  }

  function ParseRCReq(b: seq<byte>): (r: Option<RCReq>)
  {
    if |b| < RCREQ_SZ then None
    else
      RCReqSize();
      SplitWidths(b, RCREQ_WIDTHS);
      Some(RCReqOf(Split(b, RCREQ_WIDTHS)))
  }

  const RCREQ_AT: seq<nat> := [
    0, 64, 128, 129, 130, 138, 142, 146, 150, 154, 158, 162, 166, 170, 174,
    178, 186, 194, 198, 206, 214, 222, 230, 238]

  const RCREQ_LIST: seq<nat> := [64, 64, 1, 1, 8, 4, 4, 4, 4, 4, 4, 4, 4, 4, 4, 8, 8, 4, 8, 8, 8, 8, 8, 8]

  lemma RCReqList()
    ensures RCREQ_WIDTHS == RCREQ_LIST
  {
    assert HEAD_WIDTHS + CONFIG_WIDTHS == RCREQ_LIST[..15];
    assert ATTR_WIDTHS + [8] == RCREQ_LIST[15..];
    assert RCREQ_WIDTHS == (HEAD_WIDTHS + CONFIG_WIDTHS) + (ATTR_WIDTHS + [8]);
  }

  lemma RCReqOffsets()
    ensures Offsets(RCREQ_LIST, RCREQ_AT)
  {
  }

  /** The fields of a creation request at their places in the buffer. */
  ghost predicate RCReqAt(r: RCReq, b: seq<byte>) {
    && |b| >= 246
    && r.name == b[..64] && r.nameRecv == b[64..128]
    && r.whetherCreate == b[128] && r.whetherRecv == b[129] && r.nicId == FromLE(b[130..138])
    && ConfigAt(r.config, b, 138) && AttrAt(r.attr, b, 178) && r.maxRecvSz == FromLE(b[238..246])
  }

  lemma RCReqLayout(b: seq<byte>)
    requires |b| >= 246
    ensures ParseRCReq(b).Some? && RCReqAt(ParseRCReq(b).value, b)
  {
    var p := RCReqCut(b);
    RCReqOfCut(b, p);
  }

  lemma RCReqCut(b: seq<byte>) returns (p: seq<seq<byte>>)
    requires |b| >= 246
    ensures HaveWidths(p, RCREQ_WIDTHS) && ParseRCReq(b) == Some(RCReqOf(p))
    ensures FieldsCut(b, RCREQ_LIST, RCREQ_AT, p)
  {
    RCReqSize();
    SplitWidths(b, RCREQ_WIDTHS);
    p := Split(b, RCREQ_WIDTHS);
    RCReqList();
    RCReqOffsets();
    FieldsAt(b, RCREQ_LIST, RCREQ_AT);
  }

  lemma RCReqOfCut(b: seq<byte>, p: seq<seq<byte>>)
    requires |b| >= 246 && HaveWidths(p, RCREQ_WIDTHS) && FieldsCut(b, RCREQ_LIST, RCREQ_AT, p)
    ensures RCReqAt(RCReqOf(p), b)
  {
    HeadCut(b, p);
    ConfigCut(b, p);
    AttrCut(b, p);
  }

  lemma HeadCut(b: seq<byte>, p: seq<seq<byte>>)
    requires |b| >= 246 && FieldsCut(b, RCREQ_LIST, RCREQ_AT, p)
    ensures p[0] == b[..64] && p[1] == b[64..128] && p[2] == b[128..129] && p[3] == b[129..130]
    ensures p[4] == b[130..138] && p[23] == b[238..246]
  {
  }

  lemma ConfigCut(b: seq<byte>, p: seq<seq<byte>>)
    requires |b| >= 246 && FieldsCut(b, RCREQ_LIST, RCREQ_AT, p)
    ensures HaveWidths(p[5..15], CONFIG_WIDTHS) && ConfigAt(ConfigOf(p[5..15]), b, 138)
  {
    assert p[5] == b[138..142] && p[6] == b[142..146] && p[7] == b[146..150] && p[8] == b[150..154];
    assert p[9] == b[154..158] && p[10] == b[158..162] && p[11] == b[162..166];
    assert p[12] == b[166..170] && p[13] == b[170..174] && p[14] == b[174..178];
    ConfigParts(b, p[5..15], 138);
  }

  lemma ConfigParts(b: seq<byte>, p: seq<seq<byte>>, at: nat)
    requires at + 40 <= |b| && |p| == 10
    requires p[0] == b[at..at + 4] && p[1] == b[at + 4..at + 8] && p[2] == b[at + 8..at + 12]
    requires p[3] == b[at + 12..at + 16] && p[4] == b[at + 16..at + 20] && p[5] == b[at + 20..at + 24]
    requires p[6] == b[at + 24..at + 28] && p[7] == b[at + 28..at + 32]
    requires p[8] == b[at + 32..at + 36] && p[9] == b[at + 36..at + 40]
    ensures HaveWidths(p, CONFIG_WIDTHS) && ConfigAt(ConfigOf(p), b, at)
  {
  }

  lemma AttrCut(b: seq<byte>, p: seq<seq<byte>>)
    requires |b| >= 246 && FieldsCut(b, RCREQ_LIST, RCREQ_AT, p)
    ensures HaveWidths(p[15..23], ATTR_WIDTHS) && AttrAt(AttrOf(p[15..23]), b, 178)
  {
    assert p[15] == b[178..186] && p[16] == b[186..194] && p[17] == b[194..198] && p[18] == b[198..206];
    assert p[19] == b[206..214] && p[20] == b[214..222] && p[21] == b[222..230] && p[22] == b[230..238];
    AttrParts(b, p[15..23], 178);
  }

  lemma AttrParts(b: seq<byte>, p: seq<seq<byte>>, at: nat)
    requires at + 60 <= |b| && |p| == 8
    requires p[0] == b[at..at + 8] && p[1] == b[at + 8..at + 16] && p[2] == b[at + 16..at + 20]
    requires p[3] == b[at + 20..at + 28] && p[4] == b[at + 28..at + 36] && p[5] == b[at + 36..at + 44]
    requires p[6] == b[at + 44..at + 52] && p[7] == b[at + 52..at + 60]
    ensures HaveWidths(p, ATTR_WIDTHS) && AttrAt(AttrOf(p), b, at)
  {
  }

  lemma RCReqFieldsRoundTrip(r: RCReq)
    ensures RCReqOf(RCReqFields(r)) == r
  {
    var p := RCReqFields(r);
    assert p[5..15] == ConfigFields(r.config);
    assert p[15..23] == AttrFields(r.attr);
    ConfigRoundTrip(r.config);
    AttrRoundTrip(r.attr);
    Field64RoundTrip(r.nicId);
    Field64RoundTrip(r.maxRecvSz);
  }

  lemma RCReqRoundTrip(r: RCReq, tail: seq<byte>)
    ensures |DumpRCReq(r)| == RCREQ_SZ
    ensures ParseRCReq(DumpRCReq(r) + tail) == Some(r)
  {
    RCReqSize();
    SplitJoin(RCReqFields(r), RCREQ_WIDTHS, tail);
    RCReqFieldsRoundTrip(r);
  }

  // -------------------------------------------------------------- RCReply

  datatype RCReply = RCReply(status: byte, attr: QPAttr, key: u64)

  const RCREPLY_WIDTHS: seq<nat> := [1] + ATTR_WIDTHS + [8]
  const RCREPLY_SZ: nat := 69

  lemma RCReplySize()
    ensures Sum(RCREPLY_WIDTHS) == RCREPLY_SZ
  {
    assert Sum([8]) == 8 && Sum([1]) == 1;
    SumAppend([1] + ATTR_WIDTHS, [8]);
    SumAppend([1], ATTR_WIDTHS);
    SumAttr();
  }

  function RCReplyFields(r: RCReply): (p: seq<seq<byte>>)
    ensures HaveWidths(p, RCREPLY_WIDTHS)
  {
    [[r.status]] + AttrFields(r.attr) + [LE(r.key, 8)]
  }

  function RCReplyOf(p: seq<seq<byte>>): RCReply
    requires HaveWidths(p, RCREPLY_WIDTHS)
  {
    assert HaveWidths(p[1..9], ATTR_WIDTHS);
    RCReply(p[0][0], AttrOf(p[1..9]), Field64(p[9]))
  }

  function DumpRCReply(r: RCReply): (b: seq<byte>)
  {
    Join(RCReplyFields(r))
  }

  function ParseRCReply(b: seq<byte>): (r: Option<RCReply>)
  {
    if |b| < RCREPLY_SZ then None
    else
      RCReplySize();
      SplitWidths(b, RCREPLY_WIDTHS);
      Some(RCReplyOf(Split(b, RCREPLY_WIDTHS)))
  }

  /** Where the fields of a creation reply lie: the status, the attribute, the key. */
  lemma RCReplyLayout(b: seq<byte>)
    requires |b| >= 69
    ensures var o := ParseRCReply(b);
            o.Some? && o.value.status == b[0] && AttrAt(o.value.attr, b, 1) && o.value.key == FromLE(b[61..69])
  {
    RCReplySize();
    RCReplyOffsets();
    FieldsAt(b, RCREPLY_WIDTHS, RCREPLY_AT);
  }

  const RCREPLY_AT: seq<nat> := [0, 1, 9, 17, 21, 29, 37, 45, 53, 61]

  lemma RCReplyOffsets()
    ensures Offsets(RCREPLY_WIDTHS, RCREPLY_AT)
  {
    assert RCREPLY_WIDTHS == [1, 8, 8, 4, 8, 8, 8, 8, 8, 8];
  }

  /** The eight fields of an attribute, one after the other from `at`. */
  ghost predicate AttrAt(a: QPAttr, b: seq<byte>, at: nat) {
    && at + 60 <= |b|
    && a.subnetPrefix == FromLE(b[at..at + 8]) && a.interfaceId == FromLE(b[at + 8..at + 16])
    && a.localId == FromLE(b[at + 16..at + 20]) && a.lid == FromLE(b[at + 20..at + 28])
    && a.psn == FromLE(b[at + 28..at + 36]) && a.portId == FromLE(b[at + 36..at + 44])
    && a.qpn == FromLE(b[at + 44..at + 52]) && a.qkey == FromLE(b[at + 52..at + 60])
  }

  /** The ten fields of a configuration, likewise. */
  ghost predicate ConfigAt(c: QPConfig, b: seq<byte>, at: nat) {
    && at + 40 <= |b|
    && c.accessFlags == FromLE(b[at..at + 4]) && c.maxRdAtomic == FromLE(b[at + 4..at + 8])
    && c.maxDestRdAtomic == FromLE(b[at + 8..at + 12]) && c.rqPsn == FromLE(b[at + 12..at + 16])
    && c.sqPsn == FromLE(b[at + 16..at + 20]) && c.timeout == FromLE(b[at + 20..at + 24])
    && c.maxSendSize == FromLE(b[at + 24..at + 28]) && c.maxRecvSize == FromLE(b[at + 28..at + 32])
    && c.qkey == FromLE(b[at + 32..at + 36]) && c.dcKey == FromLE(b[at + 36..at + 40])
  }

  lemma RCReplyRoundTrip(r: RCReply, tail: seq<byte>)
    ensures |DumpRCReply(r)| == RCREPLY_SZ
    ensures ParseRCReply(DumpRCReply(r) + tail) == Some(r)
  {
    var p := RCReplyFields(r);
    RCReplySize();
    SplitJoin(p, RCREPLY_WIDTHS, tail);
    assert p[1..9] == AttrFields(r.attr);
    AttrRoundTrip(r.attr);
    Field64RoundTrip(r.key);
  }

  // ------------------------------------------------------------- DelRCReq

  datatype DelRCReq = DelRCReq(name: NameField, key: u64)

  const DELREQ_WIDTHS: seq<nat> := [NAME_SZ, 8]
  const DELREQ_SZ: nat := 72

  lemma DelReqSize()
    ensures Sum(DELREQ_WIDTHS) == DELREQ_SZ
  {
    assert Sum([8]) == 8;
    assert DELREQ_WIDTHS[1..] == [8];
  }

  function DelReqFields(r: DelRCReq): (p: seq<seq<byte>>)
    ensures HaveWidths(p, DELREQ_WIDTHS)
  {
    [r.name, LE(r.key, 8)]
  }

  function DumpDelReq(r: DelRCReq): (b: seq<byte>)
  {
    Join(DelReqFields(r))
  }

  function ParseDelReq(b: seq<byte>): (r: Option<DelRCReq>)
  {
    if |b| < DELREQ_SZ then None
    else
      DelReqSize();
      SplitWidths(b, DELREQ_WIDTHS);
      var p := Split(b, DELREQ_WIDTHS);
      Some(DelRCReq(p[0], Field64(p[1])))
  }

  /** The name in the first 64 bytes, the key in the next eight. */
  lemma DelReqLayout(b: seq<byte>)
    requires |b| >= 72
    ensures var o := ParseDelReq(b);
            o.Some? && o.value.name == b[..64] && o.value.key == FromLE(b[64..72])
  {
    DelReqSize();
    FieldsAt(b, DELREQ_WIDTHS, [0, 64]);
  }

  lemma DelReqRoundTrip(r: DelRCReq, tail: seq<byte>)
    ensures ParseDelReq(DumpDelReq(r) + tail) == Some(r)
  {
    DelReqSize();
    SplitJoin(DelReqFields(r), DELREQ_WIDTHS, tail);
    Field64RoundTrip(r.key);
  }

  // ----------------------------------------------------------------- names

  /** `memcpy` of a name into a zeroed 64-byte array. */
  function PadName(name: seq<byte>): (f: NameField)
    requires |name| <= NAME_SZ
  {
    name + Zeros(NAME_SZ - |name|)
  }

  /** The server sees the name the client gave exactly when that name holds no NUL. */
  lemma PaddedNameReadsBack(name: seq<byte>)
    requires |name| <= MAX_NAME_LEN
    ensures CString(PadName(name)) == name <==> 0 !in name
  {
    CStringOfPadded(name, NAME_SZ - |name|);
  }
}
