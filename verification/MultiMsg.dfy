/**
  The MultiMsg codec: up to eight segments behind a 33-byte packed header
  (one count byte, then eight entries of a u16 offset and a u16 size).
  Offsets are computed in u16 arithmetic on both sides.
*/
module MultiMsgs {
  import opened Bytes

  const HEADER_SZ: nat := 33
  const MAX_MULTI_MSG: nat := 8
  const MAX_MSG_SZ: nat := 4096

  datatype MsgEntry = MsgEntry(offset: u16, sz: u16)

  datatype RawHeader = RawHeader(num: byte, entries: seq<MsgEntry>)

  type MsgsHeader = h: RawHeader | |h.entries| == MAX_MULTI_MSG
    witness RawHeader(0, seq(8, _ => MsgEntry(0, 0)))

  // ------------------------------------------------------- the sanity check

  /** The sizes of the first `n` entries, added without wrap-around. */
  function SumSz(h: MsgsHeader, n: nat): (s: nat)
    requires n <= MAX_MULTI_MSG
  {
    if n == 0 then 0 else SumSz(h, n - 1) + h.entries[n - 1].sz
  }

  lemma {:induction false} SumSzMonotone(h: MsgsHeader, i: nat, n: nat)
    requires i <= n <= MAX_MULTI_MSG
    ensures SumSz(h, i) <= SumSz(h, n)
    decreases n
  {
    if i < n {
      SumSzMonotone(h, i, n - 1);
    }
  }

  function Wrap16(n: nat): (r: u16)
  {
    n % 0x1_0000
  }

  lemma Wrap16Add(a: nat, b: nat)
    ensures Wrap16(Wrap16(a) + Wrap16(b)) == Wrap16(a + b)
  {
  }

  predicate OffsetOk(h: MsgsHeader, i: nat)
    requires i < MAX_MULTI_MSG
  {
    h.entries[i].offset == Wrap16(HEADER_SZ + SumSz(h, i))
  }

  /** What the check decides: every offset is the modular sum of what precedes it. */
  predicate Sane(h: MsgsHeader, sz: nat)
  {
    && h.num <= MAX_MULTI_MSG
    && (forall i: nat | i < h.num :: OffsetOk(h, i))
    && Wrap16(HEADER_SZ + SumSz(h, h.num)) <= sz
  }

  method SanityCheck(h: MsgsHeader, sz: nat) returns (ok: bool)
    ensures ok == Sane(h, sz)
  {
    if h.num > MAX_MULTI_MSG {
      return false;
    }
    var curOff: u16 := HEADER_SZ;
    var i := 0;
    while i < h.num
      invariant i <= h.num
      invariant curOff == Wrap16(HEADER_SZ + SumSz(h, i))
      invariant forall j: nat | j < i :: OffsetOk(h, j)
    {
      assert OffsetOk(h, i) <==> h.entries[i].offset == curOff;
      if h.entries[i].offset != curOff {
        return false;
      }
      Wrap16Add(HEADER_SZ + SumSz(h, i), h.entries[i].sz);
      curOff := Wrap16(curOff + h.entries[i].sz);
      i := i + 1;
    }
    return curOff <= sz;
  }

  /** Entry `i` starts where the one before it ends, the first one after the header. */
  predicate Adjacent(h: MsgsHeader, i: nat)
    requires i < MAX_MULTI_MSG
  {
    h.entries[i].offset == if i == 0 then HEADER_SZ else h.entries[i - 1].offset + h.entries[i - 1].sz
  }

  /** The entries cover one range from the end of the header, in order and without gaps. */
  ghost predicate Tiles(h: MsgsHeader, sz: nat)
  {
    && h.num <= MAX_MULTI_MSG
    && (forall i: nat | i < h.num :: Adjacent(h, i))
    && (if h.num > 0 then h.entries[h.num - 1].offset + h.entries[h.num - 1].sz <= sz else HEADER_SZ <= sz)
  }

  ghost predicate SlicesInBounds(h: MsgsHeader, sz: nat)
    requires h.num <= MAX_MULTI_MSG
  {
    forall i: nat | i < h.num :: h.entries[i].offset + h.entries[i].sz <= sz
  }

  lemma {:induction false} TilesOffset(h: MsgsHeader, sz: nat, i: nat)
    requires Tiles(h, sz) && i < h.num
    ensures h.entries[i].offset == HEADER_SZ + SumSz(h, i)
  {
    assert Adjacent(h, i);
    if i > 0 {
      TilesOffset(h, sz, i - 1);
    }
  }

  lemma SaneOffset(h: MsgsHeader, sz: nat, i: nat)
    requires Sane(h, sz) && HEADER_SZ + SumSz(h, h.num) < U16 && i < h.num
    ensures h.entries[i].offset == HEADER_SZ + SumSz(h, i)
  {
    assert OffsetOk(h, i);
    SumSzMonotone(h, i, h.num);
    SmallWrap(HEADER_SZ + SumSz(h, i));
  }

  lemma SmallWrap(n: nat)
    requires n < U16
    ensures Wrap16(n) == n
  {
  }

  /** Without wrap-around the check accepts exactly the headers that tile the buffer. */
  lemma SaneIsTiling(h: MsgsHeader, sz: nat)
    requires h.num <= MAX_MULTI_MSG ==> HEADER_SZ + SumSz(h, h.num) < U16
    ensures Sane(h, sz) <==> Tiles(h, sz)
  {
    if Tiles(h, sz) {
      forall i: nat | i < h.num ensures OffsetOk(h, i) {
        TilesOffset(h, sz, i);
        SumSzMonotone(h, i, h.num);
      }
      if h.num > 0 {
        TilesOffset(h, sz, h.num - 1);
      }
    }
    if Sane(h, sz) {
      forall i: nat | i < h.num ensures Adjacent(h, i) {
        SaneOffset(h, sz, i);
        if i > 0 {
          SaneOffset(h, sz, i - 1);
        }
      }
      if h.num > 0 {
        SaneOffset(h, sz, h.num - 1);
      }
    }
  }

  /**
    An accepted header keeps every slice inside the buffer if and only if the
    sizes do not wrap the 16-bit accumulator.
  */
  lemma SaneInBoundsIffNoWrap(h: MsgsHeader, sz: nat)
    requires sz < U16 && Sane(h, sz)
    ensures SlicesInBounds(h, sz) <==> HEADER_SZ + SumSz(h, h.num) < U16
  {
    if SlicesInBounds(h, sz) {
      NoWrapUpTo(h, sz, h.num);
    } else {
      var i: nat :| i < h.num && h.entries[i].offset + h.entries[i].sz > sz;
      assert OffsetOk(h, i);
      SumSzMonotone(h, i + 1, h.num);
    }
  }

  lemma {:induction false} NoWrapUpTo(h: MsgsHeader, sz: nat, n: nat)
    requires sz < U16 && Sane(h, sz) && SlicesInBounds(h, sz) && n <= h.num
    ensures HEADER_SZ + SumSz(h, n) < U16
  {
    if n > 0 {
      NoWrapUpTo(h, sz, n - 1);
      assert OffsetOk(h, n - 1);
      assert h.entries[n - 1].offset + h.entries[n - 1].sz <= sz;
    }
  }

  /** Slices of an accepted header that does not wrap are in bounds and pairwise disjoint. */
  lemma SaneSlicesDisjoint(h: MsgsHeader, sz: nat, i: nat, j: nat)
    requires Sane(h, sz) && HEADER_SZ + SumSz(h, h.num) < U16
    requires i < j < h.num
    ensures HEADER_SZ <= h.entries[i].offset
    ensures h.entries[i].offset + h.entries[i].sz <= h.entries[j].offset
    ensures h.entries[j].offset + h.entries[j].sz <= sz
  {
    SaneOffset(h, sz, i);
    SaneOffset(h, sz, j);
    SumSzMonotone(h, i + 1, j);
    SumSzMonotone(h, j + 1, h.num);
    SmallWrap(HEADER_SZ + SumSz(h, h.num));
  }

  // Two entries of 32768 bytes: the u16 sum comes back to 33.
  const WRAPPING: MsgsHeader :=
    RawHeader(2, [MsgEntry(33, 0x8000), MsgEntry(0x8021, 0x8000)] + seq(6, _ => MsgEntry(0, 0)))

  /** The plain reading of the check is false: a header whose second slice leaves every buffer is accepted. */
  lemma WrappingHeaderAccepted(sz: nat)
    requires HEADER_SZ <= sz < U16
    ensures Sane(WRAPPING, sz) && !SlicesInBounds(WRAPPING, sz)
  {
    assert SumSz(WRAPPING, 1) == 0x8000;
    assert SumSz(WRAPPING, 2) == U16;
    assert WRAPPING.entries[1].offset + WRAPPING.entries[1].sz > sz;
  }

  // ---------------------------------------------------------------- reading

  function ReadU16(b: seq<byte>, at: nat): (n: u16)
    requires at + 2 <= |b|
  {
    FromLEInRange(b[at..at + 2]);
    Ranges();
    FromLE(b[at..at + 2])
  }

  function ReadEntry(b: seq<byte>, i: nat): (e: MsgEntry)
    requires |b| >= HEADER_SZ && i < MAX_MULTI_MSG
  {
    MsgEntry(ReadU16(b, 1 + 4 * i), ReadU16(b, 3 + 4 * i))
  }

  /** An entry is an offset and then a size, each with the low byte first. */
  lemma EntryLayout(b: seq<byte>, i: nat)
    requires |b| >= HEADER_SZ && i < MAX_MULTI_MSG
    ensures ReadEntry(b, i).offset == Word(b[1 + 4 * i], b[2 + 4 * i])
    ensures ReadEntry(b, i).sz == Word(b[3 + 4 * i], b[4 + 4 * i])
  {
    FromLETwo(b[1 + 4 * i..3 + 4 * i]);
    FromLETwo(b[3 + 4 * i..5 + 4 * i]);
  }

  /** The cast of the first 33 bytes to the packed header struct. */
  function ReadHeader(b: seq<byte>): (h: MsgsHeader)
    requires |b| >= HEADER_SZ
  {
    RawHeader(b[0], seq(MAX_MULTI_MSG, i requires 0 <= i < MAX_MULTI_MSG => ReadEntry(b, i)))
  }

  /** The header as its bytes lie: the count, then the entries one behind the other. */
  lemma HeaderLayout(b: seq<byte>, i: nat)
    requires |b| >= HEADER_SZ && i < 8
    ensures ReadHeader(b).num == b[0]
    ensures ReadHeader(b).entries[i].offset == Word(b[1 + 4 * i], b[2 + 4 * i])
    ensures ReadHeader(b).entries[i].sz == Word(b[3 + 4 * i], b[4 + 4 * i])
  {
    EntryLayout(b, i);
  }

  /** `OutOfBounds` stands for the read past the buffer that the code does not guard against. */
  datatype Slice = Absent | OutOfBounds | Segment(bytes: seq<byte>)

  function QueryOne(b: seq<byte>, i: nat): (s: Slice)
    requires |b| >= HEADER_SZ && b[0] <= MAX_MULTI_MSG
  {
    if i >= b[0] then Absent
    else
      var e := ReadEntry(b, i);
      if e.offset + e.sz > |b| then OutOfBounds
      else Segment(b[e.offset..e.offset + e.sz])
  }

  /** `create_from` hands out the buffer itself when its size and header are accepted. */
  method CreateFrom(b: seq<byte>, maxSz: nat) returns (r: Option<seq<byte>>)
    requires |b| >= HEADER_SZ
    ensures r == if |b| <= maxSz && Sane(ReadHeader(b), |b|) then Some(b) else None
  {
    if |b| > maxSz {
      return None;
    }
    var sane := SanityCheck(ReadHeader(b), |b|);
    return if sane then Some(b) else None;
  }

  predicate Decodable(b: seq<byte>, maxSz: nat)
    requires |b| >= HEADER_SZ
  {
    |b| <= maxSz && Sane(ReadHeader(b), |b|)
  }

  /** What a query finds, from the bytes of the header alone. */
  lemma QueryExact(b: seq<byte>, i: nat)
    requires |b| >= HEADER_SZ && b[0] <= MAX_MULTI_MSG
    ensures QueryOne(b, i) == Absent <==> i >= b[0]
    ensures i < b[0] ==>
              var lo, n := Word(b[1 + 4 * i], b[2 + 4 * i]), Word(b[3 + 4 * i], b[4 + 4 * i]);
              && (QueryOne(b, i) == OutOfBounds <==> lo + n > |b|)
              && (lo + n <= |b| ==> QueryOne(b, i) == Segment(b[lo..lo + n]))
  {
    if i < b[0] {
      EntryLayout(b, i);
    }
  }

  /** Entry `i` does not begin where the sizes before it end, in 16 bits. */
  predicate Misplaced(h: MsgsHeader, i: nat)
    requires i < MAX_MULTI_MSG
  {
    h.entries[i].offset != (33 + SumSz(h, i)) % 0x1_0000
  }

  /** Too many segments, one that does not begin where the one before ends, or an end behind the buffer. */
  ghost predicate Malformed(h: MsgsHeader, sz: nat) {
    || h.num > 8
    || (exists i: nat :: i < h.num && Misplaced(h, i))
    || (33 + SumSz(h, h.num)) % 0x1_0000 > sz
  }

  lemma MalformedIff(h: MsgsHeader, sz: nat)
    ensures Malformed(h, sz) <==> !Sane(h, sz)
  {
    if h.num <= MAX_MULTI_MSG {
      forall i: nat | i < h.num ensures Misplaced(h, i) <==> !OffsetOk(h, i) {
        SameWrap(HEADER_SZ + SumSz(h, i), 33 + SumSz(h, i));
      }
      SameWrap(HEADER_SZ + SumSz(h, h.num), 33 + SumSz(h, h.num));
    }
  }

  lemma SameWrap(a: nat, b: nat)
    requires a == b
    ensures Wrap16(a) == b % 0x1_0000
  {
  }

  /** A buffer is refused if and only if it is too long or its header is malformed. */
  lemma RefusedIff(b: seq<byte>, maxSz: nat)
    requires |b| >= HEADER_SZ
    ensures !Decodable(b, maxSz) <==> |b| > maxSz || Malformed(ReadHeader(b), |b|)
  {
    MalformedIff(ReadHeader(b), |b|);
  }

  // ---------------------------------------------------------------- writing

  function EntryBytes(e: MsgEntry): (b: seq<byte>)
    ensures |b| == 4
  {
    LE(e.offset, 2) + LE(e.sz, 2)
  }

  /** The header entries of `msgs`, from their lengths alone. */
  function EntryTable(msgs: seq<seq<byte>>): (b: seq<byte>)
    ensures |b| == 4 * |msgs|
  {
    if msgs == [] then []
    else
      var init, last := msgs[..|msgs| - 1], msgs[|msgs| - 1];
      EntryTable(init) + EntryBytes(EntryOf(init, last))
  }

  function EntryOf(before: seq<seq<byte>>, msg: seq<byte>): (e: MsgEntry)
  {
    MsgEntry(Wrap16(HEADER_SZ + TotalLen(before)), Wrap16(|msg|))
  }

  lemma EntryOfExact(before: seq<seq<byte>>, msg: seq<byte>)
    requires HEADER_SZ + TotalLen(before) + |msg| < U16
    ensures EntryOf(before, msg) == MsgEntry(HEADER_SZ + TotalLen(before), |msg|)
  {
  }

  lemma EntryOfEnd(before: seq<seq<byte>>, msg: seq<byte>)
    ensures var e := EntryOf(before, msg);
            Wrap16(e.offset + e.sz) == Wrap16(HEADER_SZ + TotalLen(before) + |msg|)
  {
    Wrap16Add(HEADER_SZ + TotalLen(before), |msg|);
  }

  /** The wire format of a list of segments. */
  function Encode(msgs: seq<seq<byte>>): (b: seq<byte>)
    requires |msgs| <= MAX_MULTI_MSG
    ensures |b| == HEADER_SZ + TotalLen(msgs)
  {
    EncodeHeader(msgs) + Concat(msgs)
  }

  function EncodeHeader(msgs: seq<seq<byte>>): (b: seq<byte>)
    requires |msgs| <= MAX_MULTI_MSG
    ensures |b| == HEADER_SZ
  {
    [|msgs|] + EntryTable(msgs) + Zeros(4 * (MAX_MULTI_MSG - |msgs|))
  }

  lemma {:induction false} EntryTableAt(msgs: seq<seq<byte>>, i: nat)
    requires i < |msgs|
    ensures EntryTable(msgs)[4 * i..4 * i + 4] == EntryBytes(EntryOf(msgs[..i], msgs[i]))
    decreases |msgs|
  {
    var init := msgs[..|msgs| - 1];
    if i < |msgs| - 1 {
      EntryTableAt(init, i);
      assert init[..i] == msgs[..i];
      assert EntryTable(msgs)[4 * i..4 * i + 4] == EntryTable(init)[4 * i..4 * i + 4];
    }
  }

  lemma EntryRoundTrip(b: seq<byte>, i: nat, e: MsgEntry)
    requires |b| >= HEADER_SZ && i < MAX_MULTI_MSG
    requires b[1 + 4 * i..5 + 4 * i] == EntryBytes(e)
    ensures ReadEntry(b, i) == e
  {
    var at := 1 + 4 * i;
    FieldsOfEntry(b, at, LE(e.offset, 2), LE(e.sz, 2));
    ReadBackU16(b, at, e.offset);
    ReadBackU16(b, at + 2, e.sz);
  }

  /** Two adjacent two-byte fields, each cut out on its own. */
  lemma FieldsOfEntry(b: seq<byte>, at: nat, x: seq<byte>, y: seq<byte>)
    requires at + 4 <= |b| && |x| == 2 && |y| == 2 && b[at..at + 4] == x + y
    ensures b[at..at + 2] == x && b[at + 2..at + 4] == y
  {
    assert b[at..at + 2] == b[at..at + 4][..2];
    assert b[at + 2..at + 4] == b[at..at + 4][2..];
  }

  lemma ReadBackU16(b: seq<byte>, at: nat, v: u16)
    requires at + 2 <= |b| && b[at..at + 2] == LE(v, 2)
    ensures ReadU16(b, at) == v
  {
    Ranges();
    FromLEOfLE(v, 2);
  }

  lemma ReadEncodedEntry(msgs: seq<seq<byte>>, tail: seq<byte>, i: nat)
    requires i < |msgs| <= MAX_MULTI_MSG
    ensures ReadEntry(Encode(msgs) + tail, i) == EntryOf(msgs[..i], msgs[i])
  {
    EntryTableAt(msgs, i);
    TableSlice(|msgs|, EntryTable(msgs), Concat(msgs), tail, 4 * i);
    EntryRoundTrip(Encode(msgs) + tail, i, EntryOf(msgs[..i], msgs[i]));
  }

  lemma TableSlice(n: nat, table: seq<byte>, payload: seq<byte>, tail: seq<byte>, at: nat)
    requires n <= MAX_MULTI_MSG && at + 4 <= |table|
    ensures ([n] + table + Zeros(4 * (MAX_MULTI_MSG - n)) + payload + tail)[1 + at..5 + at] == table[at..at + 4]
  {
  }

  ghost predicate EntryIs(h: MsgsHeader, msgs: seq<seq<byte>>, i: nat)
    requires i < |msgs| && i < MAX_MULTI_MSG
  {
    h.entries[i] == EntryOf(msgs[..i], msgs[i])
  }

  /** `h` is the header that the segments `msgs` are written with. */
  ghost predicate HeaderOf(h: MsgsHeader, msgs: seq<seq<byte>>)
  {
    && |msgs| <= MAX_MULTI_MSG
    && h.num == |msgs|
    && forall i: nat | i < |msgs| :: EntryIs(h, msgs, i)
  }

  lemma {:induction false} EncodedSumSz(h: MsgsHeader, msgs: seq<seq<byte>>, n: nat)
    requires HeaderOf(h, msgs) && n <= |msgs| && HEADER_SZ + TotalLen(msgs) < U16
    ensures SumSz(h, n) == TotalLen(msgs[..n])
  {
    if n > 0 {
      EncodedSumSz(h, msgs, n - 1);
      assert EntryIs(h, msgs, n - 1);
      TotalLenMonotone(msgs, n);
      assert msgs[..n][..n - 1] == msgs[..n - 1];
    } else {
      assert msgs[..n] == [];
    }
  }

  lemma HeaderOfIsSane(h: MsgsHeader, msgs: seq<seq<byte>>, sz: nat)
    requires HeaderOf(h, msgs) && HEADER_SZ + TotalLen(msgs) < U16
    requires HEADER_SZ + TotalLen(msgs) <= sz
    ensures Sane(h, sz)
  {
    forall i: nat | i < h.num ensures OffsetOk(h, i) {
      EncodedSumSz(h, msgs, i);
      assert EntryIs(h, msgs, i);
    }
    EncodedSumSz(h, msgs, |msgs|);
    assert msgs[..|msgs|] == msgs;
  }

  lemma ReadEncodedHeader(msgs: seq<seq<byte>>, tail: seq<byte>)
    requires |msgs| <= MAX_MULTI_MSG
    ensures HeaderOf(ReadHeader(Encode(msgs) + tail), msgs)
  {
    forall i: nat | i < |msgs|
      ensures EntryIs(ReadHeader(Encode(msgs) + tail), msgs, i)
    {
      ReadEncodedEntry(msgs, tail, i);
    }
  }

  lemma EncodedPayload(msgs: seq<seq<byte>>, tail: seq<byte>, i: nat)
    requires i < |msgs| <= MAX_MULTI_MSG
    ensures var lo := HEADER_SZ + TotalLen(msgs[..i]);
            && lo + |msgs[i]| <= |Encode(msgs)|
            && (Encode(msgs) + tail)[lo..lo + |msgs[i]|] == msgs[i]
  {
    var lo := TotalLen(msgs[..i]);
    ConcatSlice(msgs, tail, i);
    SliceShift(EncodeHeader(msgs), Concat(msgs) + tail, lo, lo + |msgs[i]|);
    assert Encode(msgs) + tail == EncodeHeader(msgs) + (Concat(msgs) + tail);
  }

  lemma EncodedSegment(msgs: seq<seq<byte>>, tail: seq<byte>, i: nat, b: seq<byte>)
    requires i < |msgs| <= MAX_MULTI_MSG && HEADER_SZ + TotalLen(msgs) < U16
    requires b == Encode(msgs) + tail
    ensures QueryOne(b, i) == Segment(msgs[i])
  {
    EncodedPayload(msgs, tail, i);
    EncodedEntry(msgs, tail, i, b);
    QueryAt(b, i, HEADER_SZ + TotalLen(msgs[..i]), msgs[i]);
  }

  lemma EncodedEntry(msgs: seq<seq<byte>>, tail: seq<byte>, i: nat, b: seq<byte>)
    requires i < |msgs| <= MAX_MULTI_MSG && HEADER_SZ + TotalLen(msgs[..i]) + |msgs[i]| < U16
    requires b == Encode(msgs) + tail
    ensures b[0] == |msgs| && ReadEntry(b, i) == MsgEntry(HEADER_SZ + TotalLen(msgs[..i]), |msgs[i]|)
  {
    EntryOfExact(msgs[..i], msgs[i]);
    ReadEncodedEntry(msgs, tail, i);
  }

  lemma QueryAt(b: seq<byte>, i: nat, lo: u16, m: seq<byte>)
    requires |b| >= HEADER_SZ && i < b[0] <= MAX_MULTI_MSG && |m| < U16
    requires ReadEntry(b, i) == MsgEntry(lo, |m|) && lo + |m| <= |b| && b[lo..lo + |m|] == m
    ensures QueryOne(b, i) == Segment(m)
  {
  }

  /**
    Round trip: whatever bytes follow the encoding, it is accepted, it has as
    many segments as were written, and each is read back unchanged.
  */
  lemma DecodeEncode(msgs: seq<seq<byte>>, tail: seq<byte>, maxSz: nat)
    requires |msgs| <= MAX_MULTI_MSG && HEADER_SZ + TotalLen(msgs) < U16
    requires |Encode(msgs) + tail| <= maxSz
    ensures Decodable(Encode(msgs) + tail, maxSz)
    ensures (Encode(msgs) + tail)[0] == |msgs|
    ensures forall i: nat | i < |msgs| :: QueryOne(Encode(msgs) + tail, i) == Segment(msgs[i])
    ensures forall i: nat | i >= |msgs| :: QueryOne(Encode(msgs) + tail, i) == Absent
  {
    var b := Encode(msgs) + tail;
    ReadEncodedHeader(msgs, tail);
    HeaderOfIsSane(ReadHeader(b), msgs, |b|);
    forall i: nat | i < |msgs|
      ensures QueryOne(b, i) == Segment(msgs[i])
    {
      EncodedSegment(msgs, tail, i, b);
    }
  }

  /** The encoding determines the segments. */
  lemma EncodeInjective(a: seq<seq<byte>>, b: seq<seq<byte>>)
    requires |a| <= MAX_MULTI_MSG && HEADER_SZ + TotalLen(a) < U16
    requires |b| <= MAX_MULTI_MSG && HEADER_SZ + TotalLen(b) < U16
    requires Encode(a) == Encode(b)
    ensures a == b
  {
    assert Encode(a) + [] == Encode(a) && Encode(b) + [] == Encode(b);
    DecodeEncode(a, [], |Encode(a)|);
    DecodeEncode(b, [], |Encode(b)|);
    forall i: nat | i < |a| ensures a[i] == b[i] {
      assert QueryOne(Encode(a), i) == Segment(a[i]) == Segment(b[i]);
    }
  }

  // ------------------------------------------------------------ the builder

  /** Write entry `i` and the new count into the header bytes. */
  function WriteEntry(b: seq<byte>, i: nat, e: MsgEntry): (r: seq<byte>)
    requires |b| >= HEADER_SZ && i < MAX_MULTI_MSG
    ensures |r| == |b|
  {
    [i + 1] + b[1..1 + 4 * i] + EntryBytes(e) + b[5 + 4 * i..]
  }

  lemma WriteEntryExtends(msgs: seq<seq<byte>>, m: seq<byte>)
    requires |msgs| < MAX_MULTI_MSG
    ensures WriteEntry(Encode(msgs), |msgs|, EntryOf(msgs, m)) + m == Encode(msgs + [m])
  {
    var n, all := |msgs|, msgs + [m];
    assert all[..n] == msgs;
    WriteEntryParts(n, EntryTable(msgs), EntryOf(msgs, m), Concat(msgs));
    assert EntryTable(all) == EntryTable(msgs) + EntryBytes(EntryOf(msgs, m));
    assert Concat(all) == Concat(msgs) + m;
  }

  lemma WriteEntryParts(n: nat, table: seq<byte>, e: MsgEntry, payload: seq<byte>)
    requires n < MAX_MULTI_MSG && |table| == 4 * n
    ensures WriteEntry([n] + table + Zeros(4 * (MAX_MULTI_MSG - n)) + payload, n, e)
         == [n + 1] + (table + EntryBytes(e)) + Zeros(4 * (MAX_MULTI_MSG - (n + 1))) + payload
  {
    var b := [n] + table + Zeros(4 * (MAX_MULTI_MSG - n)) + payload;
    assert b[1..1 + 4 * n] == table;
    assert b[5 + 4 * n..] == Zeros(4 * (MAX_MULTI_MSG - (n + 1))) + payload;
  }

  /** The last entry of a header is that of the last segment. */
  lemma LastEntry(msgs: seq<seq<byte>>, b: seq<byte>, i: nat)
    requires |msgs| == i + 1 <= MAX_MULTI_MSG && b == Encode(msgs)
    ensures ReadEntry(b, i) == EntryOf(msgs[..i], msgs[i])
    ensures TotalLen(msgs) == TotalLen(msgs[..i]) + |msgs[i]|
  {
    assert b == Encode(msgs) + [];
    ReadEncodedEntry(msgs, [], i);
  }

  class MultiMsg {
    const maxSz: nat
    var buf: seq<byte>
    ghost var msgs: seq<seq<byte>>

    ghost predicate Valid()
      reads this
    {
      && HEADER_SZ < maxSz < U16
      && |msgs| <= MAX_MULTI_MSG
      && buf == Encode(msgs)
      && |buf| <= maxSz
    }

    constructor (maxSz: nat)
      requires HEADER_SZ < maxSz < U16
      ensures Valid() && this.maxSz == maxSz && msgs == [] && buf == Zeros(33)
    {
      this.maxSz := maxSz;
      buf := Zeros(HEADER_SZ);
      msgs := [];
      assert Encode([]) == Zeros(HEADER_SZ);
    }

    /** `MsgsHeader::append_one`: the offset continues the previous entry, in u16. */
    method AppendOne(sz: u16) returns (ok: bool)
      requires Valid()
      modifies `buf
      ensures ok == (|msgs| < MAX_MULTI_MSG)
      ensures !ok ==> buf == old(buf)
      ensures ok ==>
        buf == WriteEntry(old(buf), |msgs|, MsgEntry(Wrap16(HEADER_SZ + TotalLen(msgs)), sz))
    {
      var num := buf[0];
      if num >= MAX_MULTI_MSG {
        return false;
      }
      var off: u16 := HEADER_SZ;
      if num != 0 {
        var last := ReadEntry(buf, num - 1);
        off := Wrap16(last.offset + last.sz);
        LastEntry(msgs, buf, num - 1);
        EntryOfEnd(msgs[..num - 1], msgs[num - 1]);
      }
      buf := WriteEntry(buf, num, MsgEntry(off, sz));
      return true;
    }

    /** Appending succeeds exactly while capacity and a free entry remain; a refusal changes nothing. */
    method Append(msg: seq<byte>) returns (ok: bool)
      requires Valid()
      modifies this
      ensures Valid()
      ensures ok == (|old(buf)| + |msg| <= maxSz && |old(msgs)| < MAX_MULTI_MSG)
      ensures msgs == if ok then old(msgs) + [msg] else old(msgs)
      ensures !ok ==> buf == old(buf)
    {
      if |buf| + |msg| > maxSz {
        return false;
      }
      ok := AppendOne(Wrap16(|msg|));
      if ok {
        WriteEntryExtends(msgs, msg);
        assert (msgs + [msg])[..|msgs|] == msgs;
        buf := buf + msg;
        msgs := msgs + [msg];
      }
    }

    /** `create_exact` reserves room for a payload and fails when it cannot fit. */
    static method CreateExact(sz: nat, maxSz: nat) returns (r: Option<MultiMsg>)
      requires HEADER_SZ < maxSz < U16
      ensures r.None? <==> sz + HEADER_SZ > maxSz
      ensures r.Some? ==> fresh(r.value) && r.value.Valid() && r.value.maxSz == maxSz && r.value.msgs == []
    {
      if sz + HEADER_SZ > maxSz {
        return None;
      }
      var m := new MultiMsg(maxSz);
      return Some(m);
    }
  }

  /** The segments that survive a sequence of append attempts: each is kept if it still fits. */
  function Accepted(attempts: seq<seq<byte>>, maxSz: nat): (msgs: seq<seq<byte>>)
    requires HEADER_SZ <= maxSz
    ensures |msgs| <= MAX_MULTI_MSG && HEADER_SZ + TotalLen(msgs) <= maxSz
  {
    if attempts == [] then []
    else
      var before, m := Accepted(attempts[..|attempts| - 1], maxSz), attempts[|attempts| - 1];
      assert (before + [m])[..|before|] == before;
      if HEADER_SZ + TotalLen(before) + |m| <= maxSz && |before| < MAX_MULTI_MSG
      then before + [m] else before
  }

  /** Any sequence of appends on a fresh message leaves exactly the accepted ones in it. */
  method AppendAll(attempts: seq<seq<byte>>, maxSz: nat) returns (m: MultiMsg)
    requires HEADER_SZ < maxSz < U16
    ensures fresh(m) && m.Valid() && m.maxSz == maxSz
    ensures m.msgs == Accepted(attempts, maxSz)
    ensures m.buf == Encode(Accepted(attempts, maxSz))
  {
    m := new MultiMsg(maxSz);
    for i := 0 to |attempts|
      invariant m.Valid() && m.maxSz == maxSz && fresh(m)
      invariant m.msgs == Accepted(attempts[..i], maxSz)
    {
      var ok := m.Append(attempts[i]);
      assert attempts[..i + 1][..i] == attempts[..i];
    }
    assert attempts[..|attempts|] == attempts;
  }

  // ----------------------------------------------------------- the iterator

  class MsgsIter {
    const buf: seq<byte>
    var curIdx: nat

    constructor (b: seq<byte>)
      requires |b| >= HEADER_SZ
      ensures buf == b && curIdx == 0
    {
      buf := b;
      curIdx := 0;
    }

    predicate HasCur()
      requires |buf| >= HEADER_SZ
      reads this
    {
      curIdx < buf[0]
    }

    method Next()
      modifies this
      ensures curIdx == old(curIdx) + 1
    {
      curIdx := curIdx + 1;
    }

    /** `cur_msg` reads the entry without asking the header check again. */
    function CurMsg(): Slice
      requires |buf| >= HEADER_SZ && buf[0] <= MAX_MULTI_MSG && HasCur()
      reads this
    {
      var e := ReadEntry(buf, curIdx);
      if e.offset + e.sz > |buf| then OutOfBounds else Segment(buf[e.offset..e.offset + e.sz])
    }
  }

  /** Iterating over an accepted buffer whose slices are in bounds yields what the queries yield, in order. */
  method Iterate(b: seq<byte>) returns (out: seq<seq<byte>>)
    requires |b| >= HEADER_SZ && b[0] <= MAX_MULTI_MSG
    requires forall i: nat | i < b[0] :: QueryOne(b, i).Segment?
    ensures |out| == b[0]
    ensures forall i: nat | i < b[0] :: QueryOne(b, i) == Segment(out[i])
  {
    out := [];
    var iter := new MsgsIter(b);
    while iter.HasCur()
      invariant iter.buf == b && iter.curIdx == |out| <= b[0]
      invariant forall i: nat | i < |out| :: QueryOne(b, i) == Segment(out[i])
      decreases b[0] - iter.curIdx
    {
      assert QueryOne(b, iter.curIdx).Segment?;
      out := out + [iter.CurMsg().bytes];
      iter.Next();
    }
  }

  /**
    The whole path: append what fits, put the bytes in front of whatever the
    receive buffer held, decode, iterate.  Exactly the accepted segments come out.
  */
  method RoundTrip(attempts: seq<seq<byte>>, tail: seq<byte>, maxSz: nat) returns (out: seq<seq<byte>>)
    requires HEADER_SZ < maxSz < U16
    requires |Encode(Accepted(attempts, maxSz))| + |tail| <= maxSz
    ensures out == Accepted(attempts, maxSz)
  {
    ghost var msgs := Accepted(attempts, maxSz);
    var m := AppendAll(attempts, maxSz);
    DecodeEncode(msgs, tail, maxSz);
    var b := m.buf + tail;
    var r := CreateFrom(b, maxSz);
    out := Iterate(r.value);
    forall i: nat | i < |msgs| ensures out[i] == msgs[i] {
      assert QueryOne(b, i) == Segment(msgs[i]);
    }
  }
}
