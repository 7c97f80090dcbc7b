/**
  The receive ring: N work requests linked in a cycle, posted in runs of
  consecutive entries, and the reader that polls completions and reposts what it
  held.  Pointers into the array are indices.  The device is two FIFO queues:
  posted requests complete in order.
*/
module RecvRing {
  import opened Bytes

  datatype Link = Null | At(i: nat)

  datatype RecvWr = RecvWr(wrId: nat, sge: nat, numSge: nat, next: Link)

  datatype Sge = Sge(addr: nat, length: int, lkey: nat)

  /** The entry after `i` on a ring of `n`. */
  function Succ(i: nat, n: nat): nat {
    if i + 1 < n then i + 1 else 0
  }

  /** A position below 2n brought back onto the ring. */
  function Wrap(i: nat, n: nat): nat
    requires i < 2 * n
  {
    if i < n then i else i - n
  }

  /** `num` consecutive entries from `start`, around the ring of `n`. */
  function Circ(start: nat, num: nat, n: nat): (c: seq<nat>)
    requires start < n && num <= n
    ensures |c| == num
    ensures forall i: nat | i < num :: c[i] == Wrap(start + i, n)
  {
    seq<nat>(num, i requires 0 <= i < num => Wrap(start + i, n))
  }

  /** Running once around meets every entry once. */
  lemma CircIsPermutation(start: nat, n: nat)
    requires start < n
    ensures var c := Circ(start, n, n);
            && (forall i, j :: 0 <= i < j < n ==> c[i] != c[j])
            && (forall e: nat :: e < n ==> e in c)
  {
    var c := Circ(start, n, n);
    forall e: nat | e < n ensures e in c {
      assert c[if e >= start then e - start else e + n - start] == e;
    }
  }

  /** Dropping a run from the front and appending it behind the rest turns the ring. */
  lemma CircRotate(start: nat, num: nat, n: nat)
    requires start < n && num <= n
    ensures Circ(start, n, n)[..num] == Circ(start, num, n)
    ensures Circ(start, n, n)[num..] + Circ(start, num, n) == Circ(Wrap(start + num, n), n, n)
  {
  }

  // ---------------------------------------------------------------- chains

  /** The work requests linked in one cycle, each with its own scatter entry. */
  ghost predicate Intact(rs: seq<RecvWr>) {
    forall i: nat | i < |rs| :: rs[i].next == At(Succ(i, |rs|))
  }

  /** `path` is what the device meets when it follows the links from `path[0]` to the null. */
  ghost predicate IsChain(rs: seq<RecvWr>, path: seq<nat>) {
    && |path| > 0
    && (forall i: nat | i < |path| :: path[i] < |rs|)
    && (forall i: nat | i + 1 < |path| :: rs[path[i]].next == At(path[i + 1]))
    && rs[path[|path| - 1]].next == Null
  }

  /** The links determine the chain. */
  lemma {:induction false} ChainUnique(rs: seq<RecvWr>, p: seq<nat>, q: seq<nat>)
    requires IsChain(rs, p) && IsChain(rs, q) && p[0] == q[0]
    ensures p == q
    decreases |p|
  {
    FirstLink(rs, p);
    FirstLink(rs, q);
    if |p| > 1 {
      TailIsChain(rs, p);
      TailIsChain(rs, q);
      ChainUnique(rs, p[1..], q[1..]);
      assert p == [p[0]] + p[1..] && q == [q[0]] + q[1..];
    }
  }

  lemma FirstLink(rs: seq<RecvWr>, p: seq<nat>)
    requires IsChain(rs, p)
    ensures rs[p[0]].next == if |p| > 1 then At(p[1]) else Null
  {
  }

  lemma TailIsChain(rs: seq<RecvWr>, p: seq<nat>)
    requires IsChain(rs, p) && |p| > 1
    ensures IsChain(rs, p[1..])
  {
  }

  function Tail(header: nat, num: nat, n: nat): nat
    requires header < n && 1 <= num <= n
  {
    Wrap(header + num - 1, n)
  }

  /** Cutting an intact ring behind the `num`-th entry leaves exactly those entries as a chain, also around the end. */
  lemma CutRingIsChain(rs: seq<RecvWr>, header: nat, num: nat)
    requires Intact(rs) && header < |rs| && 1 <= num <= |rs|
    ensures var t := Tail(header, num, |rs|);
            IsChain(rs[t := rs[t].(next := Null)], Circ(header, num, |rs|))
  {
  }

  // ---------------------------------------------------------------- device

  /** A posted request as the device keeps it: which entry, and the id it will report. */
  datatype Posted = Posted(entry: nat, wrId: nat)

  function PostedOf(rs: seq<RecvWr>, path: seq<nat>): (p: seq<Posted>)
    requires forall i: nat | i < |path| :: path[i] < |rs|
    ensures |p| == |path|
  {
    seq(|path|, i requires 0 <= i < |path| => Posted(path[i], rs[path[i]].wrId))
  }

  class RecvQp {
    var posted: seq<Posted>
    var completed: seq<Posted>

    constructor ()
      ensures posted == [] && completed == []
    {
      posted, completed := [], [];
    }

    /**
      `ibv_post_recv`: follow the links from `start` until null.  The device has
      room for `room` more requests and reports an error at the first one that
      does not fit, keeping those before it.
    */
    method PostRecv(rs: array<RecvWr>, start: nat, room: nat, ghost path: seq<nat>) returns (ok: bool)
      requires IsChain(rs[..], path) && path[0] == start
      modifies `posted
      ensures ok == (|path| <= room)
      ensures posted == old(posted) + PostedOf(rs[..], if ok then path else path[..room])
    {
      var cur, taken := At(start), 0;
      while cur.At?
        invariant taken <= |path| && taken <= room
        invariant cur == if taken < |path| then At(path[taken]) else Null
        invariant posted == old(posted) + PostedOf(rs[..], path[..taken])
        decreases |path| - taken
      {
        assert cur.i < rs.Length;
        if taken >= room {
          return false;
        }
        posted := posted + [Posted(cur.i, rs[cur.i].wrId)];
        assert path[..taken + 1] == path[..taken] + [path[taken]];
        assert taken + 1 < |path| ==> rs[..][path[taken]].next == At(path[taken + 1]);
        cur := rs[cur.i].next;
        taken := taken + 1;
      }
      assert path[..taken] == path;
      return true;
    }

    /** The oldest posted request completes. */
    method Complete()
      requires posted != []
      modifies this
      ensures posted == old(posted)[1..] && completed == old(completed) + [old(posted)[0]]
    {
      completed := completed + [posted[0]];
      posted := posted[1..];
    }

    /** `ibv_poll_cq`: up to `max` of what has completed, oldest first; `k` is how many the device reports. */
    method PollCq(max: nat, k: nat) returns (wcs: seq<Posted>)
      requires k <= max && k <= |completed|
      modifies `completed
      ensures wcs == old(completed)[..k] && completed == old(completed)[k..]
    {
      wcs := completed[..k];
      completed := completed[k..];
    }
  }

  // -------------------------------------------------------------- the ring

  class RecvEntries {
    const rs: array<RecvWr>
    const sges: array<Sge>
    var header: nat

    ghost predicate Valid()
      reads this, rs
    {
      rs.Length > 0 && rs.Length == sges.Length && header < rs.Length && Intact(rs[..])
    }

    constructor (rs: array<RecvWr>, sges: array<Sge>)
      ensures this.rs == rs && this.sges == sges && header == 0
    {
      this.rs, this.sges := rs, sges;
      header := 0;
    }
  }

  lemma ModSucc(i: nat, n: nat)
    requires i < n
    ensures (i + 1) % n == Succ(i, n)
  {
  }

  /** The ring with the link behind the `num`-th entry from `header` cut. */
  function CutAt(rs: seq<RecvWr>, header: nat, num: nat): (c: seq<RecvWr>)
    requires header < |rs| && 1 <= num <= |rs|
    ensures |c| == |rs|
  {
    var t := Tail(header, num, |rs|);
    rs[t := rs[t].(next := Null)]
  }

  /** `post_recvs`: cut behind the last entry of the run, post from the header, and only on success mend and advance. */
  method PostRecvs(qp: RecvQp, r: RecvEntries, num: nat, room: nat) returns (ok: bool)
    requires r.Valid() && 1 <= num <= r.rs.Length
    modifies qp`posted, r`header, r.rs
    ensures ok == (num <= room)
    ensures var run := Circ(old(r.header), num, r.rs.Length);
            qp.posted == old(qp.posted) + PostedOf(old(r.rs[..]), if ok then run else run[..room])
    ensures ok ==> r.Valid() && r.rs[..] == old(r.rs[..]) && r.header == Wrap(old(r.header) + num, r.rs.Length)
    ensures !ok ==> r.header == old(r.header) && r.rs[..] == CutAt(old(r.rs[..]), old(r.header), num)
  {
    ghost var before := r.rs[..];
    var tail := r.header + num - 1;
    if tail >= r.rs.Length {
      tail := tail - r.rs.Length;
    }
    var temp := r.rs[tail].next;
    ok := PostCut(qp, r, num, room, tail);
    if !ok {
      return;
    }
    r.rs[tail] := r.rs[tail].(next := temp);
    assert r.rs[..] == before;
    ModSucc(tail, r.rs.Length);
    r.header := (tail + 1) % r.rs.Length;
  }

  /** Cut the ring behind entry `tail`, the last of the run, and post the run. */
  method PostCut(qp: RecvQp, r: RecvEntries, num: nat, room: nat, tail: nat) returns (ok: bool)
    requires r.Valid() && 1 <= num <= r.rs.Length && tail == Tail(r.header, num, r.rs.Length)
    modifies qp`posted, r.rs
    ensures ok == (num <= room)
    ensures var run := Circ(r.header, num, r.rs.Length);
            qp.posted == old(qp.posted) + PostedOf(old(r.rs[..]), if ok then run else run[..room])
    ensures r.rs[..] == CutAt(old(r.rs[..]), r.header, num)
  {
    ghost var before := r.rs[..];
    ghost var run := Circ(r.header, num, r.rs.Length);
    r.rs[tail] := r.rs[tail].(next := Null);
    assert r.rs[..] == CutAt(before, r.header, num);
    CutRingIsChain(before, r.header, num);
    ok := qp.PostRecv(r.rs, r.header, room, run);
    PostedIgnoresLinks(before, tail, if ok then run else run[..room]);
  }

  lemma PostedIgnoresLinks(rs: seq<RecvWr>, t: nat, path: seq<nat>)
    requires t < |rs| && forall i: nat | i < |path| :: path[i] < |rs|
    ensures PostedOf(rs[t := rs[t].(next := Null)], path) == PostedOf(rs, path)
  {
  }
}
