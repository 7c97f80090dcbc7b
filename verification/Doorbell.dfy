/**
  DoorbellHelper: N send requests linked in order, of which the first `size()`
  are handed to the device as one chain.  `wrs[i].next` is an index, where N
  stands for the address one past the array.
*/
module Doorbell {
  import opened Bytes
  import opened RecvRing

  /** The chain 0, 1, ..., m-1 and then null. */
  ghost predicate ChainOf(links: seq<Link>, m: nat) {
    && 0 < m <= |links|
    && (forall i: nat | i + 1 < m :: links[i] == At(i + 1))
    && links[m - 1] == Null
  }

  /** Following `n` links from `at`; null and addresses behind the array lead nowhere. */
  function Follow(links: seq<Link>, at: Link, n: nat): (l: Link)
    decreases n
  {
    if n == 0 || at == Null || at.i >= |links| then at else Follow(links, links[at.i], n - 1)
  }

  /** On such a chain the device meets request `k` after `k` links, and null after `m`. */
  lemma {:induction false} ChainVisits(links: seq<Link>, m: nat, from: nat, k: nat)
    requires ChainOf(links, m) && from + k <= m && from < m
    ensures Follow(links, At(from), k) == if from + k < m then At(from + k) else Null
    decreases k
  {
    if k > 0 && from + 1 < m {
      ChainVisits(links, m, from + 1, k - 1);
    } else if k > 0 {
      assert links[from] == Null;
    }
  }

  // ------------------------------------------------------------ the index

  /** The value an `i8` takes when `i` is stored in it. */
  function I8(i: int): (r: int)
    ensures -128 <= r <= 127
    ensures -128 <= i <= 127 ==> r == i
  {
    (i + 128) % 256 - 128
  }

  /** `full`: the `int` size is compared with an unsigned capacity. */
  predicate IsFull(n: u32, idx: int) {
    (idx + 1) % 0x1_0000_0000 == n
  }

  /** The index after `k` calls of `next` on a fresh helper of `n` requests. */
  function IndexAfter(n: u32, k: nat): (idx: int)
    ensures -128 <= idx <= 127
  {
    if k == 0 then -1
    else
      var idx := IndexAfter(n, k - 1);
      if IsFull(n, idx) then idx else I8(idx + 1)
  }

  lemma FullIff(n: u32, idx: int)
    requires -1 <= idx <= 127
    ensures IsFull(n, idx) <==> idx + 1 == n
  {
  }

  lemma {:induction false} IndexCounts(n: u32, k: nat)
    requires n > 0 && (n <= 128 || k <= 128)
    ensures IndexAfter(n, k) == (if k < n then k else n) - 1
  {
    if k > 0 {
      IndexCounts(n, k - 1);
      FullIff(n, IndexAfter(n, k - 1));
    }
  }

  /**
    The index counts the claimed requests, and stays inside the array, however
    often `next` is called if and only if the capacity is at most 128: the test
    against the type's range is made on the default capacity, not on this one.
  */
  lemma IndexStaysIff(n: u32)
    requires n > 0
    ensures (forall k: nat :: -1 <= IndexAfter(n, k) < n) <==> n <= 128
  {
    if n <= 128 {
      forall k: nat ensures -1 <= IndexAfter(n, k) < n {
        IndexCounts(n, k);
      }
    } else {
      IndexCounts(n, 128);
      FullIff(n, 127);
      assert IndexAfter(n, 129) == -128;
    }
  }

  /** Above that, up to where the unsigned comparison interferes, `next` never refuses. */
  lemma NeverFull(n: u32, k: nat)
    requires 128 < n < 0x1_0000_0000 - 127
    ensures !IsFull(n, IndexAfter(n, k))
  {
    var idx := IndexAfter(n, k);
    assert -127 <= idx + 1 <= 128;
  }

  class DoorbellHelper {
    const N: u32
    const links: array<Link>
    var curIdx: int
    ghost var frozen: bool

    /**
      The links between uses.  The last one is whatever the last full batch left
      there: the first entry, or the address past the array.
    */
    ghost predicate Valid()
      reads this, links
    {
      && 0 < N && links.Length == N
      && -1 <= curIdx < N && curIdx <= 127
      && (forall i: nat | i + 1 < N && !(frozen && i == curIdx) :: links[i] == At(i + 1))
      && (frozen ==> curIdx >= 0 && links[curIdx] == Null)
      && (!(frozen && curIdx == N - 1) ==> links[N - 1] in {At(0), At(N)})
    }

    constructor (n: u32)
      requires 0 < n
      ensures Valid() && N == n && Size() == 0 && !frozen && links[n - 1] == At(0)
      ensures fresh(links)
    {
      N := n;
      var a := new Link[n](_ => Null);
      for i := 0 to n
        invariant forall j: nat | j < i :: a[j] == At(j + 1)
      {
        a[i] := At(i + 1);
      }
      a[n - 1] := At(0);
      links := a;
      curIdx, frozen := -1, false;
    }

    function Size(): int
      reads this
    {
      curIdx + 1
    }

    /**
      Claim the next request, unless all N are claimed.  Beyond 128 requests the
      index wraps and points before the array.
    */
    method Next() returns (ok: bool)
      requires Valid() && !frozen
      modifies `curIdx
      ensures links[..] == old(links[..]) && ok == (old(Size()) < N)
      ensures !ok ==> Valid() && curIdx == old(curIdx)
      ensures ok && old(Size()) < 128 ==> Valid() && Size() == old(Size()) + 1
      ensures ok && old(Size()) == 128 ==> N > 128 && curIdx == -128
    {
      FullIff(N, curIdx);
      if IsFull(N, curIdx) {
        return false;
      }
      curIdx := I8(curIdx + 1);
      return true;
    }

    /** After freezing, the first request heads a chain of exactly the claimed ones. */
    method Freeze()
      requires Valid() && !frozen && Size() > 0
      modifies this`frozen, links
      ensures Valid() && frozen && Size() == old(Size())
      ensures ChainOf(links[..], Size())
      ensures links[..] == old(links[..])[curIdx := Null]
    {
      links[curIdx] := Null;
      frozen := true;
    }

    method FreezeDone()
      requires Valid() && Size() > 0
      modifies this`frozen, links
      ensures Valid() && !frozen && Size() == old(Size())
      ensures links[..] == old(links[..])[curIdx := At(curIdx + 1)]
    {
      links[curIdx] := At(curIdx + 1);
      frozen := false;
    }

    /** Ready for the next batch; a full batch leaves the last link past the array instead of at the start. */
    method Clear()
      requires Valid() && Size() > 0
      modifies this, links
      ensures Valid() && !frozen && Size() == 0
      ensures links[N - 1] == if old(curIdx) == N - 1 then At(N) else old(links[N - 1])
    {
      FreezeDone();
      curIdx := -1;
    }

    /** Count the requests the device would meet; N + 1 when no null is met within N links. */
    method SanityCheckSz() returns (sz: nat)
      requires Valid()
      ensures frozen ==> sz == Size()
      ensures Size() == 0 ==> sz == 0
      ensures !frozen && Size() > 0 ==> sz == N + 1
    {
      if Size() == 0 {
        return 0;
      }
      var cur := At(0);
      for i := 0 to N
        invariant cur == (if i < N then At(i) else links[N - 1]) || (i == N && !frozen)
        invariant frozen ==> i <= curIdx
        invariant cur.At?
      {
        cur := links[cur.i];
        if cur == Null {
          return i + 1;
        }
      }
      return N + 1;
    }
  }

  /**
    Any number of batches: `attempts[b]` requests are attempted in batch `b`.  The
    links `seen[b]` at its posting form a chain of exactly the claimed requests.
  */
  method Reuse(d: DoorbellHelper, attempts: seq<nat>) returns (posted: seq<nat>, ghost seen: seq<seq<Link>>)
    requires d.Valid() && !d.frozen && d.Size() == 0
    requires forall a | a in attempts :: 0 < a && (d.N <= 128 || a <= 128)
    modifies d, d.links
    ensures d.Valid() && !d.frozen && d.Size() == 0
    ensures |posted| == |seen| == |attempts|
    ensures forall b: nat | b < |attempts| :: posted[b] == if attempts[b] < d.N then attempts[b] else d.N
    ensures forall b: nat | b < |attempts| :: ChainOf(seen[b], posted[b])
  {
    posted, seen := [], [];
    for b := 0 to |attempts|
      invariant d.Valid() && !d.frozen && d.Size() == 0 && |posted| == |seen| == b
      invariant forall c: nat | c < b :: ChainOf(seen[c], posted[c])
      invariant forall c: nat | c < b :: posted[c] == if attempts[c] < d.N then attempts[c] else d.N
    {
      assert attempts[b] in attempts;
      for i := 0 to attempts[b]
        invariant d.Valid() && !d.frozen && d.Size() == if i < d.N then i else d.N
      {
        var _ := d.Next();
      }
      d.Freeze();
      seen := seen + [d.links[..]];
      var sz := d.SanityCheckSz();
      posted := posted + [sz];
      d.Clear();
    }
  }
}
