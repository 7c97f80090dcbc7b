/**
  Send-side accounting of a queue pair: the 16-bit watermarks that ride in the
  low bits of each work request id, and the count of signaled requests.
*/
module SendAccounting {
  import opened Bytes
  import opened Bits

  const PROGRESS_BITS: nat := 16

  function Low16(n: nat): u16 { n % 0x1_0000 }

  // ------------------------------------------------------------ watermarks

  class Progress {
    var high: u16
    var low: u16

    constructor ()
      ensures high == 0 && low == 0
    {
      high, low := 0, 0;
    }

    method Forward(num: u16) returns (r: u16)
      modifies `high
      ensures r == high == Low16(old(high) + num)
    {
      high := Low16(high + num);
      return high;
    }

    method Done(num: nat)
      modifies `low
      ensures low == Low16(num)
    {
      low := Low16(num);
    }
  }

  /** `pending_reqs`: the distance from the low to the high watermark around the 16-bit circle. */
  function Pending(high: u16, low: u16): u16 {
    if high >= low then high - low else Low16(0xFFFF - (low - high) + 1)
  }

  /** With watermarks that are unbounded counters taken modulo 2^16, it is their distance modulo 2^16. */
  lemma PendingIsDistance(sent: nat, seen: nat)
    ensures Pending(Low16(sent), Low16(seen)) == (sent - seen) % 0x1_0000
  {
  }

  // ------------------------------------------------------- work request ids

  // `bitmask<u64>(num_progress_bits)`
  const MARK_MASK: nat := 0xFFFF

  lemma MarkMaskIsBitmask()
    ensures MARK_MASK == Bitmask(PROGRESS_BITS, 64)
  {
    BitmaskIsOnes(16, 64);
    Pow2Values();
  }

  /** `wr << 16` on a 64-bit word. */
  function ShiftUp(wr: u64): u64 {
    (wr * 0x1_0000) % 0x1_0000_0000_0000_0000
  }

  lemma ShiftUpIsShl(wr: u64)
    ensures ShiftUp(wr) == Shl(wr, PROGRESS_BITS, 64)
  {
    Pow2Values();
  }

  /** `encode_my_wr`: the user id above, the watermark below. */
  function EncodeWr(wr: u64, mark: u16): nat {
    BitOr(ShiftUp(wr), mark)
  }

  function DecodeUser(id: nat): nat {
    id / 0x1_0000
  }

  function DecodeMark(id: nat): nat {
    BitAnd(id, MARK_MASK)
  }

  function User48(wr: u64): nat {
    wr % 0x1_0000_0000_0000
  }

  lemma EncodedSum(wr: u64, mark: u16)
    ensures EncodeWr(wr, mark) == User48(wr) * 0x1_0000 + mark
  {
    ScaleMod(wr, 0x1_0000, 0x1_0000_0000_0000);
    assert Pow2(16) == 0x1_0000 by { Pow2Values(); }
    OrBelow(User48(wr), mark, 16);
  }

  lemma SumDecodes(u: nat, mark: u16)
    ensures (u * 0x1_0000 + mark) / 0x1_0000 == u && Low16(u * 0x1_0000 + mark) == mark
  {
    DivModUnique(u * 0x1_0000 + mark, 0x1_0000, u, mark);
  }

  lemma MaskedMark(n: nat)
    ensures BitAnd(n, MARK_MASK) == Low16(n)
  {
    assert Pow2(16) == 0x1_0000 by { Pow2Values(); }
    AndMask(n, 16);
  }

  /** The id fits its word, the user id comes back modulo 2^48, and the watermark unchanged. */
  lemma WrRoundTrip(wr: u64, mark: u16)
    ensures EncodeWr(wr, mark) < 0x1_0000_0000_0000_0000
    ensures DecodeUser(EncodeWr(wr, mark)) == User48(wr)
    ensures DecodeMark(EncodeWr(wr, mark)) == mark
  {
    EncodedSum(wr, mark);
    MaskedMark(EncodeWr(wr, mark));
    SumDecodes(User48(wr), mark);
  }
}
