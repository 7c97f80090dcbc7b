/**
  Byte buffers, little-endian fields and concatenated segments.

  `ByteBuffer` is a C++ string used as raw bytes.  The packed structs that are
  dumped into it are sequences of fixed-width little-endian fields, and a
  MultiMsg payload is a concatenation of segments; both are read back by slicing
  at the sum of the preceding widths.
*/
module Bytes {

  type byte = x: int | 0 <= x < 256
  type u16 = x: int | 0 <= x < 0x1_0000
  type u32 = x: int | 0 <= x < 0x1_0000_0000
  type u64 = x: int | 0 <= x < 0x1_0000_0000_0000_0000

  const U16: int := 0x1_0000
  const U32: int := 0x1_0000_0000
  const U64: int := 0x1_0000_0000_0000_0000

  datatype Option<+T> = None | Some(value: T)

  function Zeros(n: nat): (z: seq<byte>)
    ensures |z| == n && forall i | 0 <= i < n :: z[i] == 0
  {
    seq(n, _ => 0)
  }

  /** The number of values of a field of `w` bytes. */
  function Range(w: nat): (r: int)
    ensures r >= 1
  {
    if w == 0 then 1 else 256 * Range(w - 1)
  }

  /** The value `n` as a little-endian field of `w` bytes. */
  function LE(n: nat, w: nat): (b: seq<byte>)
    ensures |b| == w
  {
    if w == 0 then [] else [n % 256] + LE(n / 256, w - 1)
  }

  function FromLE(b: seq<byte>): (n: nat)
  {
    if b == [] then 0 else b[0] + 256 * FromLE(b[1..])
  }

  lemma {:induction false} FromLEOfLE(n: nat, w: nat)
    requires n < Range(w)
    ensures FromLE(LE(n, w)) == n
  {
    if w > 0 {
      FromLEOfLE(n / 256, w - 1);
      assert LE(n, w)[1..] == LE(n / 256, w - 1);
    }
  }

  lemma {:induction false} FromLEInRange(b: seq<byte>)
    ensures FromLE(b) < Range(|b|)
  {
    if b != [] {
      FromLEInRange(b[1..]);
    }
  }

  /** The later byte is the more significant one. */
  lemma {:induction false} FromLEAppend(b: seq<byte>, x: byte)
    ensures FromLE(b + [x]) == FromLE(b) + Range(|b|) * x
  {
    if b == [] {
      assert [x][1..] == [] && [] + [x] == [x];
    } else {
      FromLEAppend(b[1..], x);
      assert (b + [x])[1..] == b[1..] + [x];
      NextPlace(FromLE(b[1..]), Range(|b| - 1), x);
    }
  }

  lemma NextPlace(f: nat, r: nat, x: nat)
    ensures 256 * (f + r * x) == 256 * f + (256 * r) * x
  {
  }

  function Word(low: int, high: int): int {
    low + 256 * high
  }

  /** A two-byte field is its first byte and 256 times its second. */
  lemma FromLETwo(b: seq<byte>)
    requires |b| == 2
    ensures FromLE(b) == Word(b[0], b[1])
  {
    assert b[1..][1..] == [];
    assert FromLE(b[1..]) == b[1];
  }

  lemma Ranges()
    ensures Range(1) == 256 && Range(2) == U16 && Range(4) == U32 && Range(8) == U64
  {
  }

  /** All segments, one after the other. */
  function Concat(parts: seq<seq<byte>>): (b: seq<byte>)
    ensures |b| == TotalLen(parts)
  {
    if parts == [] then []
    else Concat(parts[..|parts| - 1]) + parts[|parts| - 1]
  }

  function TotalLen(parts: seq<seq<byte>>): (n: nat)
  {
    if parts == [] then 0
    else TotalLen(parts[..|parts| - 1]) + |parts[|parts| - 1]|
  }

  lemma TotalLenSmall(a: seq<byte>, b: seq<byte>)
    ensures TotalLen([a]) == |a|
    ensures TotalLen([a, b]) == |a| + |b|
  {
  }

  lemma {:induction false} TotalLenMonotone(parts: seq<seq<byte>>, i: nat)
    requires i <= |parts|
    ensures TotalLen(parts[..i]) <= TotalLen(parts)
    decreases |parts|
  {
    if i == |parts| {
      assert parts[..i] == parts;
    } else {
      TotalLenMonotone(parts[..|parts| - 1], i);
      assert parts[..|parts| - 1][..i] == parts[..i];
    }
  }

  /** Segment `i` is found at the sum of the preceding lengths, whatever follows. */
  lemma {:induction false} ConcatSlice(parts: seq<seq<byte>>, tail: seq<byte>, i: nat)
    requires i < |parts|
    ensures var lo := TotalLen(parts[..i]);
            && lo + |parts[i]| <= |Concat(parts)|
            && (Concat(parts) + tail)[lo..lo + |parts[i]|] == parts[i]
    decreases |parts|
  {
    var init, last := parts[..|parts| - 1], parts[|parts| - 1];
    var lo := TotalLen(parts[..i]);
    if i == |parts| - 1 {
      assert (Concat(init) + last + tail)[lo..lo + |last|] == last;
    } else {
      ConcatSlice(init, last + tail, i);
      assert init[..i] == parts[..i];
      assert Concat(parts) + tail == Concat(init) + (last + tail);
    }
  }

  lemma SliceShift(a: seq<byte>, b: seq<byte>, lo: nat, hi: nat)
    requires lo <= hi <= |b|
    ensures (a + b)[|a| + lo..|a| + hi] == b[lo..hi]
  {
  }

  /** A receive into `buf` overwrites its front and leaves the rest as it was. */
  function Overwrite(buf: seq<byte>, datagram: seq<byte>): (r: seq<byte>)
    ensures |r| == |buf|
    ensures |datagram| <= |buf| ==> r == datagram + buf[|datagram|..]
  {
    if |datagram| <= |buf| then datagram + buf[|datagram|..] else datagram[..|buf|]
  }

  // ------------------------------------------------------- packed structs

  function Sum(widths: seq<nat>): nat {
    if widths == [] then 0 else widths[0] + Sum(widths[1..])
  }

  /** Cut the front of a buffer into consecutive fields of the given widths. */
  function Split(b: seq<byte>, widths: seq<nat>): (parts: seq<seq<byte>>)
    requires Sum(widths) <= |b|
    ensures |parts| == |widths|
  {
    if widths == [] then [] else [b[..widths[0]]] + Split(b[widths[0]..], widths[1..])
  }

  /** Field `i` is cut at the sum of the widths before it. */
  lemma {:induction false} SplitAt(b: seq<byte>, widths: seq<nat>, i: nat)
    requires Sum(widths) <= |b| && i < |widths|
    ensures Sum(widths[..i]) + widths[i] <= Sum(widths)
    ensures Split(b, widths)[i] == b[Sum(widths[..i])..Sum(widths[..i]) + widths[i]]
  {
    if i == 0 {
      assert widths[..0] == [];
    } else {
      var rest := widths[1..];
      SplitAt(b[widths[0]..], rest, i - 1);
      SumPrefix(widths, i);
      SliceOfRest(b, widths[0], Sum(rest[..i - 1]), Sum(rest[..i - 1]) + rest[i - 1]);
    }
  }

  lemma SumPrefix(widths: seq<nat>, i: nat)
    requires 0 < i <= |widths|
    ensures Sum(widths[..i]) == widths[0] + Sum(widths[1..][..i - 1])
  {
    assert widths[..i][1..] == widths[1..][..i - 1];
  }

  lemma SliceOfRest(b: seq<byte>, w: nat, lo: nat, hi: nat)
    requires lo <= hi && w + hi <= |b|
    ensures b[w..][lo..hi] == b[w + lo..w + hi]
  {
  }

  /** `at` lists where the fields of these widths begin. */
  ghost predicate Offsets(widths: seq<nat>, at: seq<nat>) {
    && |at| == |widths| && (at != [] ==> at[0] == 0)
    && forall i: nat | i + 1 < |at| :: at[i + 1] == at[i] + widths[i]
  }

  lemma {:induction false} OffsetIsSum(widths: seq<nat>, at: seq<nat>, i: nat)
    requires Offsets(widths, at) && i < |at|
    ensures Sum(widths[..i]) == at[i]
  {
    if i == 0 {
      assert widths[..0] == [];
    } else {
      OffsetIsSum(widths, at, i - 1);
      SumNext(widths[..i - 1], widths[i - 1]);
      assert widths[..i] == widths[..i - 1] + [widths[i - 1]];
    }
  }

  lemma {:induction false} SumNext(a: seq<nat>, w: nat)
    ensures Sum(a + [w]) == Sum(a) + w
  {
    if a == [] {
      assert a + [w] == [w] && [w][1..] == [];
    } else {
      SumNext(a[1..], w);
      assert (a + [w])[1..] == a[1..] + [w];
    }
  }

  /** Each part is found at its offset. */
  ghost predicate FieldsCut(b: seq<byte>, widths: seq<nat>, at: seq<nat>, parts: seq<seq<byte>>) {
    && |at| == |widths| == |parts|
    && forall i: nat | i < |at| :: at[i] + widths[i] <= |b| && parts[i] == b[at[i]..at[i] + widths[i]]
  }

  lemma FieldsAt(b: seq<byte>, widths: seq<nat>, at: seq<nat>)
    requires Sum(widths) <= |b| && Offsets(widths, at)
    ensures FieldsCut(b, widths, at, Split(b, widths))
  {
    forall i: nat | i < |at|
      ensures at[i] + widths[i] <= |b| && Split(b, widths)[i] == b[at[i]..at[i] + widths[i]]
    {
      OffsetIsSum(widths, at, i);
      SplitAt(b, widths, i);
    }
  }

  /** The fields of a packed struct, one after the other. */
  function Join(parts: seq<seq<byte>>): (b: seq<byte>)
  {
    if parts == [] then [] else parts[0] + Join(parts[1..])
  }

  ghost predicate HaveWidths(parts: seq<seq<byte>>, widths: seq<nat>) {
    |parts| == |widths| && forall i: nat | i < |parts| :: |parts[i]| == widths[i]
  }

  /** Cutting recovers the fields, whatever follows them. */
  lemma {:induction false} SplitJoin(parts: seq<seq<byte>>, widths: seq<nat>, tail: seq<byte>)
    requires HaveWidths(parts, widths)
    ensures |Join(parts)| == Sum(widths)
    ensures Split(Join(parts) + tail, widths) == parts
  {
    if parts != [] {
      var b := Join(parts) + tail;
      SplitJoin(parts[1..], widths[1..], tail);
      FrontAndRest(parts[0], Join(parts[1..]), tail);
    }
  }

  lemma FrontAndRest(a: seq<byte>, rest: seq<byte>, tail: seq<byte>)
    ensures (a + rest + tail)[..|a|] == a && (a + rest + tail)[|a|..] == rest + tail
  {
  }

  // ------------------------------------------------------------ C strings

  /** The bytes before the first NUL. */
  function CString(b: seq<byte>): (s: seq<byte>)
    ensures |s| <= |b| && s == b[..|s|] && 0 !in s
    ensures |s| < |b| ==> b[|s|] == 0
  {
    if b == [] || b[0] == 0 then [] else [b[0]] + CString(b[1..])
  }

  /** A name copied to the front of a zeroed array reads back as itself exactly when it holds no NUL. */
  lemma {:induction false} CStringOfPadded(name: seq<byte>, pad: nat)
    ensures CString(name + Zeros(pad)) == name <==> 0 !in name
  {
    if name == [] {
      assert name + Zeros(pad) == Zeros(pad);
    } else if name[0] != 0 {
      CStringOfPadded(name[1..], pad);
      assert (name + Zeros(pad))[1..] == name[1..] + Zeros(pad);
      assert name == [name[0]] + name[1..];
    }
  }
}
