/**
  Building a receive ring over a bump allocator.
*/
module RecvFactory {
  import opened Bytes
  import opened RecvRing

  class SimpleAllocator {
    var buf: nat
    var totalMem: nat
    const key: nat

    constructor (base: nat, sz: nat, key: nat)
      ensures buf == base && totalMem == sz && this.key == key
    {
      buf, totalMem, this.key := base, sz, key;
    }

    /** Hand out the next `sz` bytes, or refuse and keep everything. */
    method AllocOne(sz: nat) returns (r: Option<nat>)
      modifies this
      ensures r.Some? <==> sz <= old(totalMem)
      ensures r.Some? ==> r.value == old(buf) && buf == old(buf) + sz && totalMem == old(totalMem) - sz
      ensures r.None? ==> buf == old(buf) && totalMem == old(totalMem)
    {
      if totalMem < sz {
        return None;
      }
      r := Some(buf);
      buf := buf + sz;
      totalMem := totalMem - sz;
    }
  }

  /** Entry `i` of a ring whose buffers are laid out from `base`. */
  ghost predicate EntryBuilt(rs: seq<RecvWr>, sges: seq<Sge>, i: nat, base: nat, sz: u32, key: nat)
    requires i < |rs| == |sges|
  {
    && rs[i] == RecvWr(base + i * sz, i, 1, At(Succ(i, |rs|)))
    && sges[i] == Sge(base + i * sz, sz, key)
  }

  ghost predicate BuiltUpTo(rs: seq<RecvWr>, sges: seq<Sge>, n: nat, base: nat, sz: u32, key: nat)
    requires n <= |rs| == |sges|
  {
    forall i: nat | i < n :: EntryBuilt(rs, sges, i, base, sz, key)
  }

  lemma BuildOne(rs: seq<RecvWr>, sges: seq<Sge>, i: nat, base: nat, sz: u32, key: nat, w: RecvWr, g: Sge)
    requires i < |rs| == |sges| && BuiltUpTo(rs, sges, i, base, sz, key)
    requires w == RecvWr(base + i * sz, i, 1, At(Succ(i, |rs|))) && g == Sge(base + i * sz, sz, key)
    ensures BuiltUpTo(rs[i := w], sges[i := g], i + 1, base, sz, key)
  {
    var rs', sges' := rs[i := w], sges[i := g];
    forall j: nat | j < i + 1 ensures EntryBuilt(rs', sges', j, base, sz, key) {
      if j < i {
        assert EntryBuilt(rs, sges, j, base, sz, key);
      }
    }
  }

  lemma BuiltIsIntact(rs: seq<RecvWr>, sges: seq<Sge>, base: nat, sz: u32, key: nat)
    requires |rs| == |sges| && BuiltUpTo(rs, sges, |rs|, base, sz, key)
    ensures Intact(rs)
  {
    forall j: nat | j < |rs| ensures rs[j].next == At(Succ(j, |rs|)) {
      assert EntryBuilt(rs, sges, j, base, sz, key);
    }
  }

  /**
    Each request has a scatter entry of its own, with the region's key, over a
    buffer of `sz` bytes whose address is the request's id.  The buffers lie inside
    `[base, base + total)`, one behind the other.
  */
  ghost predicate Separate(rs: seq<RecvWr>, sges: seq<Sge>, base: nat, total: nat, sz: u32, key: nat)
    requires |rs| == |sges|
  {
    && (forall i: nat | i < |sges| :: OwnBuffer(rs, sges, i, sz, key))
    && (forall i: nat | i < |sges| :: base <= sges[i].addr && sges[i].addr + sz <= base + total)
    && forall i: nat, j: nat | i < j < |sges| :: sges[i].addr + sz <= sges[j].addr
  }

  predicate OwnBuffer(rs: seq<RecvWr>, sges: seq<Sge>, i: nat, sz: u32, key: nat)
    requires i < |rs| == |sges|
  {
    && rs[i].wrId == sges[i].addr && rs[i].sge == i && rs[i].numSge == 1
    && sges[i].length == sz && sges[i].lkey == key
  }

  lemma BuffersDisjoint(rs: seq<RecvWr>, sges: seq<Sge>, base: nat, sz: u32, key: nat, total: nat)
    requires |rs| == |sges| && BuiltUpTo(rs, sges, |rs|, base, sz, key) && |rs| * sz <= total
    ensures Separate(rs, sges, base, total, sz, key)
  {
    forall i: nat | i < |sges|
      ensures OwnBuffer(rs, sges, i, sz, key) && base <= sges[i].addr && sges[i].addr + sz <= base + total
    {
      assert EntryBuilt(rs, sges, i, base, sz, key);
      NextBuffer(i, |rs|, sz);
    }
    forall i: nat, j: nat | i < j < |sges| ensures sges[i].addr + sz <= sges[j].addr {
      assert EntryBuilt(rs, sges, i, base, sz, key) && EntryBuilt(rs, sges, j, base, sz, key);
      NextBuffer(i, j, sz);
    }
  }

  lemma NextBuffer(i: nat, j: nat, sz: nat)
    requires i < j
    ensures 0 <= i * sz && i * sz + sz <= j * sz
  {
    MulLe(i + 1, j, sz);
  }

  lemma MulLe(a: nat, b: nat, c: nat)
    requires a <= b
    ensures a * c <= b * c
    decreases b - a
  {
  }

  /** Entry `i`, on the buffer of `sge`, linked to the next one or, if it is the last, to the first. */
  method Build(rs: array<RecvWr>, sges: array<Sge>, i: nat, ghost base: nat, sge: Sge)
    requires i < rs.Length == sges.Length && 0 <= sge.length < U32
    requires sge.addr == base + i * sge.length && BuiltUpTo(rs[..], sges[..], i, base, sge.length, sge.lkey)
    modifies rs, sges
    ensures BuiltUpTo(rs[..], sges[..], i + 1, base, sge.length, sge.lkey)
  {
    var wr := RecvWr(sge.addr, i, 1, if i < rs.Length - 1 then At(i + 1) else At(0));
    ghost var rs', sges' := rs[..][i := wr], sges[..][i := sge];
    BuildOne(rs[..], sges[..], i, base, sge.length, sge.lkey, wr, sge);
    rs[i] := wr;
    sges[i] := sge;
    assert rs[..] == rs' && sges[..] == sges';
  }

  /**
    `RecvEntriesFactory::create`: a ring exactly when all `n` buffers fit; an
    exhausted allocator throws half-way, with the buffers before it gone.  Sizes
    are 32-bit words here, whatever width the caller holds them in.
  */
  method CreateRing(alloc: SimpleAllocator, n: nat, sz: u32) returns (r: Option<RecvEntries>)
    requires n > 0
    modifies alloc
    ensures r.Some? <==> n * sz <= old(alloc.totalMem)
    ensures r.Some? ==>
              && fresh(r.value) && fresh(r.value.rs) && fresh(r.value.sges)
              && r.value.Valid() && r.value.header == 0 && r.value.rs.Length == n
              && alloc.buf == old(alloc.buf) + n * sz && alloc.totalMem == old(alloc.totalMem) - n * sz
              && BuiltUpTo(r.value.rs[..], r.value.sges[..], n, old(alloc.buf), sz, alloc.key)
              && Separate(r.value.rs[..], r.value.sges[..], old(alloc.buf), old(alloc.totalMem), sz, alloc.key)
    ensures r.None? ==> alloc.totalMem < sz
  {
    var rs := new RecvWr[n](_ => RecvWr(0, 0, 0, Null));
    var sges := new Sge[n](_ => Sge(0, 0, 0));
    ghost var base, total := alloc.buf, alloc.totalMem;
    var i := 0;
    while i < n
      invariant i <= n
      invariant i * sz <= total && alloc.totalMem == total - i * sz && alloc.buf == base + i * sz
      invariant BuiltUpTo(rs[..], sges[..], i, base, sz, alloc.key)
      modifies alloc, rs, sges
    {
      var recvBuf := alloc.AllocOne(sz);
      if recvBuf.None? {
        MulLe(i + 1, n, sz);
        return None;
      }
      Build(rs, sges, i, base, Sge(recvBuf.value, sz, alloc.key));
      assert (i + 1) * sz == i * sz + sz;
      i := i + 1;
    }
    BuiltIsIntact(rs[..], sges[..], base, sz, alloc.key);
    BuffersDisjoint(rs[..], sges[..], base, sz, alloc.key, total);
    var ring := new RecvEntries(rs, sges);
    return Some(ring);
  }
}
