/**
  Runs of the receive side: the device completes requests, the reader polls,
  iterates and reposts.  Who owns which entry is an invariant of every run.
*/
module RecvRuns {
  import opened Bytes
  import opened RecvRing

  /**
    `held` is what the reader has polled and not yet reposted; `delivered` is
    the history of everything it was ever handed.
  */
  datatype RingState = RingState(
    header: nat, held: seq<Posted>, completed: seq<Posted>, posted: seq<Posted>, delivered: seq<Posted>)

  datatype RingStep = Completes | Polls(k: nat) | Reposts

  predicate Enabled(rs: seq<RecvWr>, s: RingState, step: RingStep) {
    match step
    case Completes => s.posted != []
    case Polls(k) => s.held == [] && k <= |rs| && k <= |s.completed|
    case Reposts => s.held != [] && |s.held| <= |rs| && s.header < |rs|
  }

  function Apply(rs: seq<RecvWr>, s: RingState, step: RingStep): RingState
    requires Enabled(rs, s, step)
  {
    match step
    case Completes => s.(completed := s.completed + [s.posted[0]], posted := s.posted[1..])
    case Polls(k) =>
      s.(held := s.completed[..k], completed := s.completed[k..], delivered := s.delivered + s.completed[..k])
    case Reposts =>
      s.(held := [], posted := s.posted + PostedOf(rs, Circ(s.header, |s.held|, |rs|)),
         header := Wrap(s.header + |s.held|, |rs|))
  }

  /** Held, then completed, then posted: together all entries, once each, in ring order from the header. */
  ghost predicate Owned(rs: seq<RecvWr>, s: RingState) {
    && s.header < |rs|
    && s.held + s.completed + s.posted == PostedOf(rs, Circ(s.header, |rs|, |rs|))
  }

  /** Entries follow each other around the ring, starting with entry 0. */
  ghost predicate InRingOrder(t: seq<Posted>, n: nat) {
    && (t != [] ==> t[0].entry == 0)
    && forall i: nat | 0 < i < |t| :: Follows(t, i, n)
  }

  ghost predicate Follows(t: seq<Posted>, i: nat, n: nat)
    requires 0 < i < |t|
  {
    t[i].entry == Succ(t[i - 1].entry, n)
  }

  /** What the reader holds is the end of what it was handed. */
  ghost predicate HeldLast(s: RingState) {
    |s.held| <= |s.delivered| && s.delivered[|s.delivered| - |s.held|..] == s.held
  }

  ghost predicate Inv(rs: seq<RecvWr>, s: RingState) {
    && Owned(rs, s)
    && HeldLast(s)
    && InRingOrder(s.delivered + s.completed + s.posted, |rs|)
  }

  /** A reposted run is exactly what was held. */
  lemma RepostsTheHeld(rs: seq<RecvWr>, s: RingState)
    requires Owned(rs, s)
    ensures |s.held| <= |rs|
    ensures PostedOf(rs, Circ(s.header, |s.held|, |rs|)) == s.held
  {
    var all := PostedOf(rs, Circ(s.header, |rs|, |rs|));
    assert |all| == |rs|;
    assert s.held == all[..|s.held|];
  }

  /** No entry is both with the reader and with the device, none is lost, and none appears twice. */
  lemma OwnershipIsExclusive(rs: seq<RecvWr>, s: RingState)
    requires Owned(rs, s)
    ensures var all := s.held + s.completed + s.posted;
            && |all| == |rs|
            && (forall i, j :: 0 <= i < j < |all| ==> all[i].entry != all[j].entry)
            && (forall e: nat :: e < |rs| ==> Posted(e, rs[e].wrId) in all)
  {
    var all := s.held + s.completed + s.posted;
    CircIsPermutation(s.header, |rs|);
    var c := Circ(s.header, |rs|, |rs|);
    assert all == PostedOf(rs, c);
    forall e: nat | e < |rs| ensures Posted(e, rs[e].wrId) in all {
      assert e in c;
      var i :| 0 <= i < |c| && c[i] == e;
      assert all[i] == Posted(e, rs[e].wrId);
    }
  }

  lemma HeldIsElsewhere(rs: seq<RecvWr>, s: RingState)
    requires Owned(rs, s)
    ensures forall p | p in s.held :: p !in s.completed && p !in s.posted
  {
    OwnershipIsExclusive(rs, s);
    var all := s.held + s.completed + s.posted;
    forall p | p in s.held ensures p !in s.completed && p !in s.posted {
      var i :| 0 <= i < |s.held| && s.held[i] == p;
      assert all[i] == p;
      assert forall j | 0 <= j < |s.completed| :: all[|s.held| + j] == s.completed[j];
      assert forall j | 0 <= j < |s.posted| :: all[|s.held| + |s.completed| + j] == s.posted[j];
    }
  }

  /**
    Why a poll must not come before the repost of what is held: the next repost
    counts from the header, so it hands the device an entry that was held before
    and keeps back one that is held now.
  */
  lemma PollOverHeldMisposts(rs: seq<RecvWr>, s: RingState, k: nat)
    requires Owned(rs, s) && s.held != [] && 0 < k <= |s.completed|
    ensures k <= |rs|
    ensures var run := PostedOf(rs, Circ(s.header, k, |rs|));
            && run[0] == s.held[0] && run[0] !in s.completed[..k]
            && s.completed[k - 1] !in run
  {
    OwnershipIsExclusive(rs, s);
    var all := s.held + s.completed + s.posted;
    var run := PostedOf(rs, Circ(s.header, k, |rs|));
    assert run == all[..k];
    assert forall j | 0 <= j < |s.completed| :: all[|s.held| + j] == s.completed[j];
  }

  lemma InvCompletes(rs: seq<RecvWr>, s: RingState)
    requires Inv(rs, s) && Enabled(rs, s, Completes)
    ensures Inv(rs, Apply(rs, s, Completes))
  {
    var s' := Apply(rs, s, Completes);
    assert s'.completed + s'.posted == s.completed + s.posted;
    assert s'.held + s'.completed + s'.posted == s.held + (s.completed + s.posted) == s.held + s.completed + s.posted;
    assert s'.delivered + s'.completed + s'.posted == s.delivered + (s.completed + s.posted)
        == s.delivered + s.completed + s.posted;
  }

  lemma InvPolls(rs: seq<RecvWr>, s: RingState, k: nat)
    requires Inv(rs, s) && Enabled(rs, s, Polls(k))
    ensures Inv(rs, Apply(rs, s, Polls(k)))
  {
    var s' := Apply(rs, s, Polls(k));
    assert s'.held + s'.completed == s.completed;
    assert s'.held + s'.completed + s'.posted == s.held + s.completed + s.posted;
    assert s'.delivered + s'.completed + s'.posted == s.delivered + (s'.held + s'.completed) + s.posted;
  }

  lemma InvReposts(rs: seq<RecvWr>, s: RingState)
    requires Inv(rs, s) && Enabled(rs, s, Reposts)
    ensures Inv(rs, Apply(rs, s, Reposts))
  {
    RepostKeepsOwned(rs, s);
    RepostKeepsOrder(rs, s);
  }

  lemma RepostKeepsOwned(rs: seq<RecvWr>, s: RingState)
    requires Owned(rs, s) && Enabled(rs, s, Reposts)
    ensures Owned(rs, Apply(rs, s, Reposts))
    ensures Apply(rs, s, Reposts).posted == s.posted + s.held
  {
    RepostsTheHeld(rs, s);
    var all := s.held + s.completed + s.posted;
    RotatePosted(rs, s.header, |s.held|);
    assert all[|s.held|..] + s.held == [] + s.completed + (s.posted + s.held);
  }

  lemma RotatePosted(rs: seq<RecvWr>, h: nat, num: nat)
    requires h < |rs| && num <= |rs|
    ensures PostedOf(rs, Circ(h, |rs|, |rs|))[num..] + PostedOf(rs, Circ(h, num, |rs|))
         == PostedOf(rs, Circ(Wrap(h + num, |rs|), |rs|, |rs|))
  {
    var c, run := Circ(h, |rs|, |rs|), Circ(h, num, |rs|);
    CircRotate(h, num, |rs|);
    assert PostedOf(rs, c)[num..] + PostedOf(rs, run) == PostedOf(rs, c[num..] + run);
  }

  lemma RepostKeepsOrder(rs: seq<RecvWr>, s: RingState)
    requires Inv(rs, s) && Enabled(rs, s, Reposts)
    ensures InRingOrder(s.delivered + s.completed + Apply(rs, s, Reposts).posted, |rs|)
  {
    var n := |rs|;
    RepostsTheHeld(rs, s);
    var all := s.held + s.completed + s.posted;
    var t := s.delivered + s.completed + s.posted;
    var t' := s.delivered + s.completed + (s.posted + s.held);
    assert t' == t + s.held;
    EndsWithAll(rs, s, t, all);
    forall i: nat | 0 < i < |t'| ensures Follows(t', i, n) {
      if i < |t| {
        assert Follows(t, i, n);
      } else if i > |t| {
        HeldFollows(rs, s, i - |t|);
      }
    }
  }

  lemma EndsWithAll(rs: seq<RecvWr>, s: RingState, t: seq<Posted>, all: seq<Posted>)
    requires Owned(rs, s) && HeldLast(s) && s.held != []
    requires all == s.held + s.completed + s.posted && t == s.delivered + s.completed + s.posted
    ensures |all| == |rs| <= |t| && t[|t| - 1] == all[|rs| - 1]
    ensures s.held[0].entry == Succ(all[|rs| - 1].entry, |rs|)
  {
    var m := |s.delivered| - |s.held|;
    assert s.delivered == s.delivered[..m] + s.held;
    assert t == s.delivered[..m] + all;
    var c := Circ(s.header, |rs|, |rs|);
    assert all == PostedOf(rs, c);
    assert s.held[0] == all[0] && all[0].entry == c[0] && all[|rs| - 1].entry == c[|rs| - 1];
  }

  lemma HeldFollows(rs: seq<RecvWr>, s: RingState, i: nat)
    requires Owned(rs, s) && 0 < i < |s.held| <= |rs|
    ensures s.held[i].entry == Succ(s.held[i - 1].entry, |rs|)
  {
    RepostsTheHeld(rs, s);
  }

  lemma InvStep(rs: seq<RecvWr>, s: RingState, step: RingStep)
    requires Inv(rs, s) && Enabled(rs, s, step)
    ensures Inv(rs, Apply(rs, s, step))
  {
    match step
    case Completes => InvCompletes(rs, s);
    case Polls(k) => InvPolls(rs, s, k);
    case Reposts => InvReposts(rs, s);
  }

  ghost predicate IsRun(rs: seq<RecvWr>, states: seq<RingState>, steps: seq<RingStep>) {
    && |states| == |steps| + 1
    && Initial(rs, states[0])
    && forall i: nat | i < |steps| :: StepsTo(rs, states[i], steps[i], states[i + 1])
  }

  ghost predicate StepsTo(rs: seq<RecvWr>, s: RingState, step: RingStep, s': RingState) {
    Enabled(rs, s, step) && s' == Apply(rs, s, step)
  }

  /** Everything posted once, from entry 0. */
  ghost predicate Initial(rs: seq<RecvWr>, s: RingState) {
    rs != [] && s == RingState(0, [], [], PostedOf(rs, Circ(0, |rs|, |rs|)), [])
  }

  lemma InitialInv(rs: seq<RecvWr>, s: RingState)
    requires Initial(rs, s)
    ensures Inv(rs, s)
  {
  }

  /**
    Over every run: the three queues partition the ring, and the reader is
    handed the entries in ring order, each with the buffer it was posted with.
  */
  lemma {:induction false} RunInv(rs: seq<RecvWr>, states: seq<RingState>, steps: seq<RingStep>, i: nat)
    requires IsRun(rs, states, steps) && i < |states|
    ensures Inv(rs, states[i])
  {
    if i == 0 {
      InitialInv(rs, states[0]);
    } else {
      RunInv(rs, states, steps, i - 1);
      assert StepsTo(rs, states[i - 1], steps[i - 1], states[i]);
      InvStep(rs, states[i - 1], steps[i - 1]);
    }
  }

  lemma DeliveredInRingOrder(rs: seq<RecvWr>, states: seq<RingState>, steps: seq<RingStep>, i: nat)
    requires IsRun(rs, states, steps) && i < |states|
    ensures InRingOrder(states[i].delivered, |rs|)
  {
    RunInv(rs, states, steps, i);
    var s := states[i];
    var t := s.delivered + s.completed + s.posted;
    forall j: nat | 0 < j < |s.delivered| ensures Follows(s.delivered, j, |rs|) {
      assert Follows(t, j, |rs|);
    }
  }

  // ------------------------------------------------------------ the reader

  class RecvIter {
    const qp: RecvQp
    const entries: RecvEntries
    var wcs: seq<Posted>
    var idx: nat
    var totalMsgs: int
    ghost var delivered: seq<Posted>

    /** What the reader holds: the polled completions, until they are reposted. */
    ghost function Held(): seq<Posted>
      reads this
    {
      if totalMsgs > 0 then wcs else []
    }

    ghost function View(): RingState
      reads this, qp, entries
    {
      RingState(entries.header, Held(), qp.completed, qp.posted, delivered)
    }

    ghost predicate Valid()
      reads this, qp, entries, entries.rs
    {
      && entries.Valid()
      && (totalMsgs > 0 ==> totalMsgs == |wcs|)
      && Inv(entries.rs[..], View())
    }

    /** A ring that was posted whole, with nothing polled yet. */
    constructor (qp: RecvQp, entries: RecvEntries)
      requires entries.Valid() && entries.header == 0 && qp.completed == []
      requires qp.posted == PostedOf(entries.rs[..], Circ(0, entries.rs.Length, entries.rs.Length))
      ensures Valid() && Initial(entries.rs[..], View())
      ensures this.qp == qp && this.entries == entries && idx == 0 && totalMsgs == -1
    {
      this.qp, this.entries := qp, entries;
      wcs, idx, totalMsgs, delivered := [], 0, -1, [];
      new;
      InitialInv(entries.rs[..], View());
    }

    /**
      Polling: up to N completions, as many as the device reports.  With nothing
      held it is a step of the run; otherwise what was held is in no queue any more.
    */
    method Begin(k: nat)
      requires Valid() && k <= entries.rs.Length && k <= |qp.completed|
      modifies this, qp`completed
      ensures idx == 0 && totalMsgs == k && wcs == old(qp.completed)[..k] && qp.completed == old(qp.completed)[k..]
      ensures old(Held()) == [] ==> Valid() && View() == Apply(entries.rs[..], old(View()), Polls(k))
      ensures forall p | p in old(Held()) :: p !in wcs && p !in qp.completed && p !in qp.posted
    {
      ghost var s := View();
      if Held() == [] {
        InvPolls(entries.rs[..], s, k);
      }
      HeldIsElsewhere(entries.rs[..], s);
      wcs := qp.PollCq(entries.rs.Length, k);
      totalMsgs := k;
      idx := 0;
      delivered := delivered + wcs;
    }

    predicate HasMsgs()
      reads this
    {
      idx < totalMsgs
    }

    method Next()
      requires Valid()
      modifies `idx
      ensures Valid() && idx == old(idx) + 1 && View() == old(View())
    {
      idx := idx + 1;
    }

    /** The buffer of the current message: that of the ring entry `idx` places behind the header. */
    method CurMsg() returns (buf: Option<nat>)
      requires Valid()
      ensures buf.Some? <==> HasMsgs()
      ensures buf.Some? ==>
                && idx < entries.rs.Length
                && buf.value == entries.rs[Wrap(entries.header + idx, entries.rs.Length)].wrId
    {
      if HasMsgs() {
        RepostsTheHeld(entries.rs[..], View());
        return Some(wcs[idx].wrId);
      }
      return None;
    }

    /**
      `clear`, also run by the destructor: repost exactly what was polled.  A
      failed post is only logged: the reader forgets the buffers although the
      ring stays cut and the header stays put.
    */
    method Clear(room: nat)
      requires Valid()
      modifies this, qp`posted, entries`header, entries.rs
      ensures totalMsgs == -1
      ensures room >= |old(Held())| ==>
                && Valid() && entries.rs[..] == old(entries.rs[..])
                && qp.posted == old(qp.posted) + old(Held())
                && View() == if old(Held()) == [] then old(View()) else Apply(entries.rs[..], old(View()), Reposts)
      ensures room < |old(Held())| ==>
                && entries.header == old(entries.header)
                && |old(Held())| <= entries.rs.Length
                && entries.rs[..] == CutAt(old(entries.rs[..]), old(entries.header), |old(Held())|)
                && qp.posted == old(qp.posted) + old(Held())[..room]
    {
      if totalMsgs > 0 {
        Repost(room);
      }
      totalMsgs := -1;
    }

    /** Post again what is held; the counters of the reader are not touched. */
    method Repost(room: nat)
      requires Valid() && totalMsgs > 0
      modifies qp`posted, entries`header, entries.rs
      ensures |old(Held())| <= entries.rs.Length && Enabled(old(entries.rs[..]), old(View()), Reposts)
      ensures room >= |Held()| ==>
                && entries.Valid() && entries.rs[..] == old(entries.rs[..])
                && qp.posted == old(qp.posted) + Held()
                && var s := Apply(entries.rs[..], old(View()), Reposts);
                   Inv(entries.rs[..], s) && s.header == entries.header && s.posted == qp.posted
      ensures room < |Held()| ==>
                && entries.header == old(entries.header)
                && entries.rs[..] == CutAt(old(entries.rs[..]), old(entries.header), |Held()|)
                && qp.posted == old(qp.posted) + Held()[..room]
    {
      ghost var rs, s := entries.rs[..], View();
      RepostsTheHeld(rs, s);
      InvReposts(rs, s);
      var _ := PostRecvs(qp, entries, totalMsgs, room);
    }
  }
}
