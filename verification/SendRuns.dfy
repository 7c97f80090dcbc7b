/**
  Runs of posting, completing and polling on a send queue whose completion
  queue carries sends only.  Requests complete in order; an unsignaled one
  leaves no completion behind.  A request is posted on its own, with an id that
  carries the watermark, or as part of a batch, with the id its caller chose.
*/
module SendRuns {
  import opened Bytes
  import opened Bits
  import opened SendAccounting

  /** A work request as its poster fills it in. */
  datatype Wr = Wr(id: u64, signaled: bool)

  /** A posted request.  `no` counts the single posts tried on the queue pair from 1; it is 0 in a batch. */
  datatype Entry = Entry(no: nat, userId: u64, wrId: nat, signaled: bool)

  /**
    The queue pair and its history: the single posts tried, the last of them that
    `poll_rc_comp` has taken, what it read last in place of a watermark, and which
    of them the device took; signaled requests, those of them behind the first of
    a batch, signaled posts that were refused, and polls.
  */
  datatype SendState = SendState(
    high: u16, low: u16, out: u32, sq: seq<Entry>, cq: seq<Entry>,
    posted: nat, seen: nat, read: nat, accepted: seq<bool>,
    signaled: nat, behind: nat, refused: nat, polled: nat)

  datatype SendStep =
    | Post(userId: u64, flag: bool)   // send_normal, Op::execute
    | PostBatch(wrs: seq<Wr>)         // Op::execute_batch
    | Refuse(flag: bool)              // a single post that the device refuses
    | RefuseBatch(flag: bool)         // a refused batch; the flag of its first request
    | Complete                        // the device
    | PollSend                        // poll_send_comp
    | PollRc                          // poll_rc_comp

  const START := SendState(0, 0, 0, [], [], 0, 0, 0, [], 0, 0, 0, 0)

  function Low32(n: int): u32 { n % 0x1_0000_0000 }

  function Inc(out: u32): u32 { Low32(out + 1) }

  /** `out_signaled -= 1` on an unsigned counter. */
  function Dec(out: u32): u32 { Low32(out - 1) }

  predicate Enabled(s: SendState, step: SendStep) {
    match step
    case Post(_, _) => true
    case PostBatch(wrs) => wrs != []
    case Refuse(_) => true
    case RefuseBatch(_) => true
    case Complete => s.sq != []
    case PollSend => s.cq != []
    case PollRc => s.cq != []
  }

  function Raise(out: u32, flag: bool): u32 {
    if flag then Inc(out) else out
  }

  lemma RaiseIs(out: u32, flag: bool)
    ensures Raise(out, flag) == (out + if flag then 1 else 0) % 0x1_0000_0000
  {
  }

  function Apply(s: SendState, step: SendStep): SendState
    requires Enabled(s, step)
  {
    match step
    case Post(id, f) =>
      var mark := Low16(s.high + 1);
      s.(high := mark, out := Raise(s.out, f),
         sq := s.sq + [Entry(s.posted + 1, id, EncodeWr(id, mark), f)],
         posted := s.posted + 1, accepted := s.accepted + [true],
         signaled := s.signaled + if f then 1 else 0)
    case PostBatch(wrs) =>
      s.(out := Raise(s.out, wrs[0].signaled), sq := s.sq + BatchEntries(wrs),
         signaled := s.signaled + CountSignaled(BatchEntries(wrs)),
         behind := s.behind + CountSignaled(BatchEntries(wrs[1..])))
    case Refuse(f) =>
      s.(high := Low16(s.high + 1), out := Raise(s.out, f),
         posted := s.posted + 1, accepted := s.accepted + [false],
         refused := s.refused + if f then 1 else 0)
    case RefuseBatch(f) =>
      s.(out := Raise(s.out, f), refused := s.refused + if f then 1 else 0)
    case Complete =>
      s.(sq := s.sq[1..], cq := if s.sq[0].signaled then s.cq + [s.sq[0]] else s.cq)
    case PollSend =>
      s.(out := Dec(s.out), cq := s.cq[1..], polled := s.polled + 1)
    case PollRc =>
      s.(out := Dec(s.out), cq := s.cq[1..], polled := s.polled + 1,
         low := Low16(DecodeMark(s.cq[0].wrId)), read := Read(s.cq[0]),
         seen := if s.cq[0].no > 0 then s.cq[0].no else s.seen)
  }

  /** What a completion is read for: the number of a single post, or the id of a batch's request as it is. */
  function Read(e: Entry): nat {
    if e.no > 0 then e.no else e.userId
  }

  function BatchEntries(wrs: seq<Wr>): (q: seq<Entry>)
    ensures |q| == |wrs|
  {
    seq(|wrs|, i requires 0 <= i < |wrs| => Entry(0, wrs[i].id, wrs[i].id, wrs[i].signaled))
  }

  function CountSignaled(q: seq<Entry>): (n: nat)
    ensures n <= |q|
  {
    if q == [] then 0 else (if q[0].signaled then 1 else 0) + CountSignaled(q[1..])
  }

  lemma {:induction false} CountSignaledConcat(q: seq<Entry>, r: seq<Entry>)
    ensures CountSignaled(q + r) == CountSignaled(q) + CountSignaled(r)
  {
    if q == [] {
      assert q + r == r;
    } else {
      CountSignaledConcat(q[1..], r);
      assert (q + r)[1..] == q[1..] + r;
    }
  }

  ghost predicate IsRun(states: seq<SendState>, steps: seq<SendStep>) {
    && |states| == |steps| + 1
    && states[0] == START
    && forall i: nat | i < |steps| :: StepsTo(states[i], steps[i], states[i + 1])
  }

  ghost predicate StepsTo(s: SendState, step: SendStep, s': SendState) {
    Enabled(s, step) && s' == Apply(s, step)
  }

  // --------------------------------------------------------------- counting

  /** What the counter holds: completions to come, less the signals it was never told of, and those that never will. */
  ghost predicate CountersOk(s: SendState) {
    && s.signaled == s.polled + |s.cq| + CountSignaled(s.sq)
    && s.behind <= s.signaled
    && s.out == Low32(s.signaled - s.behind + s.refused - s.polled)
  }

  lemma IncLow(n: int)
    ensures Inc(Low32(n)) == Low32(n + 1)
  {
  }

  lemma DecLow(n: int)
    ensures Dec(Low32(n)) == Low32(n - 1)
  {
  }

  lemma BatchSplit(wrs: seq<Wr>)
    requires wrs != []
    ensures CountSignaled(BatchEntries(wrs)) == CountSignaled(BatchEntries(wrs[1..])) + if wrs[0].signaled then 1 else 0
  {
    assert BatchEntries(wrs)[1..] == BatchEntries(wrs[1..]);
  }

  lemma CountersStep(s: SendState, step: SendStep)
    requires CountersOk(s) && Enabled(s, step)
    ensures CountersOk(Apply(s, step))
  {
    IncLow(s.signaled - s.behind + s.refused - s.polled);
    DecLow(s.signaled - s.behind + s.refused - s.polled);
    var s' := Apply(s, step);
    match step
    case Post(id, f) => CountSignaledConcat(s.sq, [s'.sq[|s.sq|]]);
    case PostBatch(wrs) =>
      CountSignaledConcat(s.sq, BatchEntries(wrs));
      BatchSplit(wrs);
    case Refuse(_) =>
    case RefuseBatch(_) =>
    case Complete =>
    case PollSend =>
    case PollRc =>
  }

  lemma {:induction false} RunCounters(states: seq<SendState>, steps: seq<SendStep>, n: nat)
    requires IsRun(states, steps) && n < |states|
    ensures CountersOk(states[n])
  {
    if n > 0 {
      RunCounters(states, steps, n - 1);
      assert StepsTo(states[n - 1], steps[n - 1], states[n]);
      CountersStep(states[n - 1], steps[n - 1]);
    }
  }

  /** Only the first request of the batch may be signaled. */
  predicate FirstOnly(wrs: seq<Wr>) {
    forall i: nat | 0 < i < |wrs| :: !wrs[i].signaled
  }

  lemma {:induction false} NoneSignaledIff(wrs: seq<Wr>)
    ensures CountSignaled(BatchEntries(wrs)) == 0 <==> forall i: nat | i < |wrs| :: !wrs[i].signaled
  {
    if wrs != [] {
      NoneSignaledIff(wrs[1..]);
      BatchSplit(wrs);
      if forall i: nat | i < |wrs[1..]| :: !wrs[1..][i].signaled {
        forall i: nat | 0 < i < |wrs| ensures !wrs[i].signaled {
          assert wrs[i] == wrs[1..][i - 1];
        }
      } else {
        var i: nat :| i < |wrs[1..]| && wrs[1..][i].signaled;
        assert wrs[i + 1].signaled;
      }
    }
  }

  /** One batch raises the counter by what it will complete exactly when only its first request is signaled. */
  lemma BatchCountedIff(s: SendState, wrs: seq<Wr>)
    requires wrs != []
    ensures Apply(s, PostBatch(wrs)).behind == s.behind <==> FirstOnly(wrs)
  {
    NoneSignaledIff(wrs[1..]);
    if forall i: nat | i < |wrs[1..]| :: !wrs[1..][i].signaled {
      forall i: nat | 0 < i < |wrs| ensures !wrs[i].signaled {
        assert wrs[i] == wrs[1..][i - 1];
      }
    } else {
      var i: nat :| i < |wrs[1..]| && wrs[1..][i].signaled;
      assert wrs[i + 1].signaled;
    }
  }

  /** Every batch among the first `n` steps is signaled at its first request only. */
  ghost predicate AllFirstOnly(steps: seq<SendStep>, n: nat)
    requires n <= |steps|
  {
    forall m: nat | m < n && steps[m].PostBatch? :: FirstOnly(steps[m].wrs)
  }

  lemma {:induction false} NothingBehindIff(states: seq<SendState>, steps: seq<SendStep>, n: nat)
    requires IsRun(states, steps) && n < |states|
    ensures states[n].behind == 0 <==> AllFirstOnly(steps, n)
  {
    if n > 0 {
      NothingBehindIff(states, steps, n - 1);
      var step := steps[n - 1];
      assert StepsTo(states[n - 1], step, states[n]);
      if step.PostBatch? {
        BatchCountedIff(states[n - 1], step.wrs);
      }
    }
  }

  /** No signaled post, single or batched at its first request, is refused in the first `n` steps. */
  ghost predicate NoSignalRefused(steps: seq<SendStep>, n: nat)
    requires n <= |steps|
  {
    forall m: nat | m < n && (steps[m].Refuse? || steps[m].RefuseBatch?) :: !steps[m].flag
  }

  lemma {:induction false} NothingRefusedIff(states: seq<SendState>, steps: seq<SendStep>, n: nat)
    requires IsRun(states, steps) && n < |states|
    ensures states[n].refused == 0 <==> NoSignalRefused(steps, n)
  {
    if n > 0 {
      NothingRefusedIff(states, steps, n - 1);
      assert StepsTo(states[n - 1], steps[n - 1], states[n]);
    }
  }

  /**
    Over every run, `out_signaled` is signaled requests minus polled completions
    exactly when the requests it was never told of and those it was told of in
    vain are equally many modulo 2^32.  From the steps: while nothing signaled is
    refused, exactly when no posted batch signals behind its first request; and
    while no batch does, exactly when nothing signaled is refused.
  */
  lemma SignalsConservedIff(states: seq<SendState>, steps: seq<SendStep>, n: nat)
    requires IsRun(states, steps) && n < |states|
    ensures var s := states[n];
            var conserved := s.out == Low32(s.signaled - s.polled);
            && s.polled <= s.signaled
            && (conserved <==> (s.behind - s.refused) % 0x1_0000_0000 == 0)
            && (s.behind < 0x1_0000_0000 && NoSignalRefused(steps, n) ==> (conserved <==> AllFirstOnly(steps, n)))
            && (s.refused < 0x1_0000_0000 && AllFirstOnly(steps, n) ==> (conserved <==> NoSignalRefused(steps, n)))
  {
    RunCounters(states, steps, n);
    NothingBehindIff(states, steps, n);
    NothingRefusedIff(states, steps, n);
    var s := states[n];
    LowDifference(s.signaled - s.polled, s.behind - s.refused);
    MultipleBelow(s.behind - s.refused);
  }

  lemma LowDifference(a: int, b: int)
    ensures Low32(a - b) == Low32(a) <==> b % 0x1_0000_0000 == 0
  {
  }

  lemma MultipleBelow(b: int)
    ensures -0x1_0000_0000 < b < 0x1_0000_0000 ==> (b % 0x1_0000_0000 == 0 <==> b == 0)
  {
  }

  /** Over runs without uncounted signals no poll makes the counter wrap, while it stays below 2^32. */
  lemma NoUnderflow(states: seq<SendState>, steps: seq<SendStep>, n: nat)
    requires IsRun(states, steps) && n < |states| && AllFirstOnly(steps, n)
    requires states[n].cq != [] && states[n].signaled + states[n].refused - states[n].polled < 0x1_0000_0000
    ensures states[n].out == states[n].signaled + states[n].refused - states[n].polled > 0
    ensures Dec(states[n].out) == states[n].out - 1
  {
    RunCounters(states, steps, n);
    NothingBehindIff(states, steps, n);
  }

  /** When nothing is outstanding any more, the counter is off by the refused signals less the missed ones. */
  lemma DrainedCounter(states: seq<SendState>, steps: seq<SendStep>, n: nat)
    requires IsRun(states, steps) && n < |states| && states[n].sq == [] && states[n].cq == []
    ensures states[n].out == Low32(states[n].refused - states[n].behind)
  {
    RunCounters(states, steps, n);
  }

  // ------------------------------------------------ the doorbell benchmark

  /** A batch of `n` requests, only the last one signaled; the benchmark posts ten. */
  function LastOnly(n: nat): (wrs: seq<Wr>)
    requires n < 0x1_0000_0000
    ensures |wrs| == n
  {
    seq(n, i requires 0 <= i < n => Wr(i, i == n - 1))
  }

  function DbSteps(n: nat): seq<SendStep>
    requires n < 0x1_0000_0000
  {
    [PostBatch(LastOnly(n))] + seq(n, _ => Complete) + [PollSend]
  }

  /** The batch posted on a fresh queue pair, `k` of its requests completed. */
  function DbState(n: nat, k: nat): SendState
    requires k <= n && 2 <= n < 0x1_0000_0000
  {
    var s := Apply(START, PostBatch(LastOnly(n)));
    s.(sq := s.sq[k..], cq := if k == n then [s.sq[n - 1]] else [])
  }

  lemma DbCompletes(n: nat, k: nat)
    requires k < n && 2 <= n < 0x1_0000_0000
    ensures StepsTo(DbState(n, k), Complete, DbState(n, k + 1))
  {
    var q := Apply(START, PostBatch(LastOnly(n))).sq;
    assert q == BatchEntries(LastOnly(n));
    assert q[k..][0] == q[k] && q[k..][1..] == q[k + 1..];
  }

  /**
    A batch signaled at its end, as the doorbell benchmark posts it: one post, the
    completions and one poll lead to a counter that has wrapped below zero.
  */
  lemma DbBatchUnderflows(n: nat) returns (states: seq<SendState>)
    requires 2 <= n < 0x1_0000_0000
    ensures !FirstOnly(LastOnly(n))
    ensures IsRun(states, DbSteps(n)) && states[n + 2].out == 0xFFFF_FFFF
  {
    var steps := DbSteps(n);
    var middle := seq(n + 1, k requires 0 <= k < n + 1 => DbState(n, k));
    states := [START] + middle + [Apply(DbState(n, n), PollSend)];
    assert LastOnly(n)[n - 1].signaled;
    DbStepsAt(n, 0);
    forall i: nat | i < |steps| ensures StepsTo(states[i], steps[i], states[i + 1]) {
      DbStep(n, i, states, middle);
    }
    assert !LastOnly(n)[0].signaled;
  }

  lemma DbStepsAt(n: nat, i: nat)
    requires n < 0x1_0000_0000 && i <= n + 1
    ensures |DbSteps(n)| == n + 2
    ensures DbSteps(n)[i] == if i == 0 then PostBatch(LastOnly(n)) else if i <= n then Complete else PollSend
  {
  }

  lemma DbStep(n: nat, i: nat, states: seq<SendState>, middle: seq<SendState>)
    requires 2 <= n < 0x1_0000_0000 && i <= n + 1
    requires |middle| == n + 1 && forall k: nat | k <= n :: middle[k] == DbState(n, k)
    requires states == [START] + middle + [Apply(DbState(n, n), PollSend)]
    ensures |DbSteps(n)| == n + 2 && StepsTo(states[i], DbSteps(n)[i], states[i + 1])
  {
    DbStepsAt(n, i);
    if i == 0 {
      DbPosted(n);
      assert states[1] == middle[0];
    } else if i <= n {
      DbCompletes(n, i - 1);
      assert states[i] == middle[i - 1] && states[i + 1] == middle[i];
    } else {
      assert states[i] == middle[n];
    }
  }

  lemma DbPosted(n: nat)
    requires 2 <= n < 0x1_0000_0000
    ensures StepsTo(START, PostBatch(LastOnly(n)), DbState(n, 0))
  {
    var s := Apply(START, PostBatch(LastOnly(n)));
    assert s.sq[0..] == s.sq;
  }

  // ------------------------------------------------------------- watermarks

  ghost predicate EntryOk(e: Entry, seen: nat, posted: nat) {
    if e.no == 0 then e.wrId == e.userId
    else seen < e.no <= posted && e.wrId == User48(e.userId) * 0x1_0000 + Low16(e.no)
  }

  /** Requests not yet polled, oldest first. */
  function Pipeline(s: SendState): seq<Entry> {
    s.cq + s.sq
  }

  ghost predicate Ordered(q: seq<Entry>) {
    forall i, j :: 0 <= i < j < |q| && q[i].no > 0 && q[j].no > 0 ==> q[i].no < q[j].no
  }

  /** Unpolled single posts carry their numbers in posting order, all newer than the last one seen. */
  ghost predicate PipelineOk(q: seq<Entry>, seen: nat, posted: nat) {
    && (forall i: nat | i < |q| :: EntryOk(q[i], seen, posted))
    && Ordered(q)
  }

  ghost predicate MarksOk(s: SendState) {
    && s.high == Low16(s.posted) && s.low == Low16(s.read) && s.seen <= s.posted
    && |s.accepted| == s.posted && PipelineOk(Pipeline(s), s.seen, s.posted)
  }

  lemma PipelineConcat(q: seq<Entry>, r: seq<Entry>, seen: nat, posted: nat, posted': nat)
    requires PipelineOk(q, seen, posted) && PipelineOk(r, posted, posted') && seen <= posted <= posted'
    ensures PipelineOk(q + r, seen, posted')
  {
    var t := q + r;
    forall i: nat | i < |t| ensures EntryOk(t[i], seen, posted') {
      assert if i < |q| then EntryOk(q[i], seen, posted) else EntryOk(r[i - |q|], posted, posted');
    }
    forall i, j | 0 <= i < j < |t| && t[i].no > 0 && t[j].no > 0 ensures t[i].no < t[j].no {
      if i < |q| <= j {
        assert EntryOk(q[i], seen, posted) && EntryOk(r[j - |q|], posted, posted');
      }
    }
  }

  lemma PipelineRemove(q: seq<Entry>, m: nat, seen: nat, posted: nat)
    requires PipelineOk(q, seen, posted) && m < |q|
    ensures PipelineOk(q[..m] + q[m + 1..], seen, posted)
  {
    var q' := q[..m] + q[m + 1..];
    forall i: nat | i < |q'| ensures EntryOk(q'[i], seen, posted) {
      assert q'[i] == q[if i < m then i else i + 1];
    }
    forall i, j | 0 <= i < j < |q'| && q'[i].no > 0 && q'[j].no > 0 ensures q'[i].no < q'[j].no {
      assert q'[i] == q[if i < m then i else i + 1] && q'[j] == q[if j < m then j else j + 1];
    }
  }

  lemma NextMark(n: nat)
    ensures Low16(Low16(n) + 1) == Low16(n + 1)
  {
  }

  lemma LowLow(n: nat)
    ensures Low16(Low16(n)) == Low16(n)
  {
  }

  lemma PostedEntryOk(id: u64, mark: u16, no: nat, f: bool)
    requires no > 0 && mark == Low16(no)
    ensures PipelineOk([Entry(no, id, EncodeWr(id, mark), f)], no - 1, no)
  {
    EncodedSum(id, mark);
  }

  lemma MarksPost(s: SendState, id: u64, f: bool)
    requires MarksOk(s)
    ensures MarksOk(Apply(s, Post(id, f)))
  {
    var mark := Low16(s.high + 1);
    NextMark(s.posted);
    PostedEntryOk(id, mark, s.posted + 1, f);
    AppendToPipeline(s.cq, s.sq, [Entry(s.posted + 1, id, EncodeWr(id, mark), f)], s.seen, s.posted, s.posted + 1);
  }

  lemma MarksPostBatch(s: SendState, wrs: seq<Wr>)
    requires MarksOk(s) && wrs != []
    ensures MarksOk(Apply(s, PostBatch(wrs)))
  {
    AppendToPipeline(s.cq, s.sq, BatchEntries(wrs), s.seen, s.posted, s.posted);
  }

  lemma MarksRefuse(s: SendState, f: bool)
    requires MarksOk(s)
    ensures MarksOk(Apply(s, Refuse(f)))
  {
    NextMark(s.posted);
    AppendToPipeline(s.cq, s.sq, [], s.seen, s.posted, s.posted + 1);
    assert s.sq + [] == s.sq;
  }

  lemma AppendToPipeline(cq: seq<Entry>, sq: seq<Entry>, r: seq<Entry>, seen: nat, posted: nat, posted': nat)
    requires PipelineOk(cq + sq, seen, posted) && PipelineOk(r, posted, posted') && seen <= posted <= posted'
    ensures PipelineOk(cq + (sq + r), seen, posted')
  {
    PipelineConcat(cq + sq, r, seen, posted, posted');
    assert cq + (sq + r) == (cq + sq) + r;
  }

  lemma MarksComplete(s: SendState)
    requires MarksOk(s) && Enabled(s, Complete)
    ensures MarksOk(Apply(s, Complete))
  {
    var s' := Apply(s, Complete);
    var q, m := Pipeline(s), |s.cq|;
    if s.sq[0].signaled {
      assert Pipeline(s') == q;
    } else {
      PipelineRemove(q, m, s.seen, s.posted);
      assert Pipeline(s') == q[..m] + q[m + 1..];
    }
  }

  lemma MarksPollSend(s: SendState)
    requires MarksOk(s) && Enabled(s, PollSend)
    ensures MarksOk(Apply(s, PollSend))
  {
    DropFirst(s.cq, s.sq, s.seen, s.posted);
  }

  lemma DropFirst(cq: seq<Entry>, sq: seq<Entry>, seen: nat, posted: nat)
    requires cq != [] && PipelineOk(cq + sq, seen, posted)
    ensures PipelineOk(cq[1..] + sq, seen, posted)
    ensures cq[0].no > 0 ==> PipelineOk(cq[1..] + sq, cq[0].no, posted)
  {
    PipelineTail(cq + sq, seen, posted);
    assert (cq + sq)[1..] == cq[1..] + sq;
  }

  lemma PipelineTail(q: seq<Entry>, seen: nat, posted: nat)
    requires PipelineOk(q, seen, posted) && q != []
    ensures PipelineOk(q[1..], seen, posted)
    ensures q[0].no > 0 ==> PipelineOk(q[1..], q[0].no, posted)
  {
    var t := q[1..];
    forall i: nat | i < |t| ensures EntryOk(t[i], seen, posted) && (q[0].no > 0 ==> EntryOk(t[i], q[0].no, posted)) {
      assert t[i] == q[i + 1] && EntryOk(q[i + 1], seen, posted);
    }
  }

  lemma MarksPollRc(s: SendState)
    requires MarksOk(s) && Enabled(s, PollRc)
    ensures MarksOk(Apply(s, PollRc)) && s.seen <= Apply(s, PollRc).seen
  {
    var e := Pipeline(s)[0];
    assert EntryOk(e, s.seen, s.posted);
    DropFirst(s.cq, s.sq, s.seen, s.posted);
    PolledMark(e, s.seen, s.posted);
    LowLow(Read(e));
  }

  lemma PolledMark(e: Entry, seen: nat, posted: nat)
    requires EntryOk(e, seen, posted)
    ensures DecodeMark(e.wrId) == Low16(Read(e))
    ensures DecodeUser(e.wrId) == if e.no > 0 then User48(e.userId) else e.userId / 0x1_0000
  {
    MaskedMark(e.wrId);
    if e.no > 0 {
      SumDecodes(User48(e.userId), Low16(e.no));
    }
  }

  lemma MarksStep(s: SendState, step: SendStep)
    requires MarksOk(s) && Enabled(s, step)
    ensures MarksOk(Apply(s, step))
  {
    match step
    case Post(id, f) => MarksPost(s, id, f);
    case PostBatch(wrs) => MarksPostBatch(s, wrs);
    case Refuse(f) => MarksRefuse(s, f);
    case RefuseBatch(_) =>
    case Complete => MarksComplete(s);
    case PollSend => MarksPollSend(s);
    case PollRc => MarksPollRc(s);
  }

  lemma {:induction false} RunMarks(states: seq<SendState>, steps: seq<SendStep>, n: nat)
    requires IsRun(states, steps) && n < |states|
    ensures MarksOk(states[n])
  {
    if n == 0 {
      assert Pipeline(START) == [];
    } else {
      RunMarks(states, steps, n - 1);
      assert StepsTo(states[n - 1], steps[n - 1], states[n]);
      MarksStep(states[n - 1], steps[n - 1]);
    }
  }

  /**
    Over every run `pending_reqs` is the distance, in 16 bits, from what was read
    last to the single posts made.  It is the true number of single posts after
    the last one taken exactly when that number fits 16 bits and what was read
    last is the number of that post in its low 16 bits.
  */
  lemma PendingExactIff(states: seq<SendState>, steps: seq<SendStep>, n: nat)
    requires IsRun(states, steps) && n < |states|
    ensures var s := states[n];
            && s.seen <= s.posted
            && Pending(s.high, s.low) == (s.posted - s.read) % 0x1_0000
            && (Pending(s.high, s.low) == s.posted - s.seen <==>
                  s.posted - s.seen < 0x1_0000 && Low16(s.read) == Low16(s.seen))
  {
    RunMarks(states, steps, n);
    var s := states[n];
    PendingIsDistance(s.posted, s.read);
    DistanceExactIff(s.posted, s.seen, s.read);
  }

  lemma DistanceExactIff(posted: nat, seen: nat, read: nat)
    requires seen <= posted
    ensures (posted - read) % 0x1_0000 == posted - seen <==> posted - seen < 0x1_0000 && Low16(read) == Low16(seen)
  {
  }

  /** No request of a batch among the first `n` steps is signaled, so none of them ever completes visibly. */
  ghost predicate BatchesUnsignaled(steps: seq<SendStep>, n: nat)
    requires n <= |steps|
  {
    forall m: nat | m < n && steps[m].PostBatch? :: NoneSignaled(steps[m].wrs)
  }

  predicate NoneSignaled(wrs: seq<Wr>) {
    forall i: nat | i < |wrs| :: !wrs[i].signaled
  }

  ghost predicate SinglesOnly(s: SendState) {
    && s.read == s.seen
    && (forall i: nat | i < |s.cq| :: s.cq[i].no > 0)
    && forall i: nat | i < |s.sq| :: s.sq[i].signaled ==> s.sq[i].no > 0
  }

  lemma {:induction false} ReadsSingles(states: seq<SendState>, steps: seq<SendStep>, n: nat)
    requires IsRun(states, steps) && n < |states| && BatchesUnsignaled(steps, n)
    ensures SinglesOnly(states[n])
  {
    if n > 0 {
      ReadsSingles(states, steps, n - 1);
      assert StepsTo(states[n - 1], steps[n - 1], states[n]);
      assert steps[n - 1].PostBatch? ==> NoneSignaled(steps[n - 1].wrs);
    }
  }

  /** The single posts after number `seen` that the device took. */
  function AcceptedAfter(accepted: seq<bool>, seen: nat): (n: nat)
    requires seen <= |accepted|
    ensures n <= |accepted| - seen
    ensures n == |accepted| - seen <==> forall i | seen <= i < |accepted| :: accepted[i]
    decreases |accepted| - seen
  {
    if seen == |accepted| then 0 else (if accepted[seen] then 1 else 0) + AcceptedAfter(accepted, seen + 1)
  }

  /**
    From the steps alone: with every batch unsignaled -- in particular in runs of
    single posts -- the 16-bit watermarks report the single posts tried after the
    last one taken, exactly while that number fits 16 bits.  They report those
    the device took exactly when their number fits and the refused ones among
    them are a multiple of 2^16.
  */
  lemma PendingRefinesCounters(states: seq<SendState>, steps: seq<SendStep>, n: nat)
    requires IsRun(states, steps) && n < |states| && BatchesUnsignaled(steps, n)
    ensures var s := states[n];
            && s.seen <= s.posted == |s.accepted|
            && (Pending(s.high, s.low) == s.posted - s.seen <==> s.posted - s.seen < 0x1_0000)
            && var taken := AcceptedAfter(s.accepted, s.seen);
               Pending(s.high, s.low) == taken <==>
                 taken < 0x1_0000 && (s.posted - s.seen - taken) % 0x1_0000 == 0
  {
    PendingExactIff(states, steps, n);
    ReadsSingles(states, steps, n);
    RunMarks(states, steps, n);
    var s := states[n];
    DistanceIs(s.posted - s.seen, AcceptedAfter(s.accepted, s.seen));
  }

  lemma DistanceIs(d: nat, t: nat)
    requires t <= d
    ensures d % 0x1_0000 == t <==> t < 0x1_0000 && (d - t) % 0x1_0000 == 0
  {
  }

  /**
    One `poll_rc_comp` in any run.  Taking a single post makes the count the true
    one while it fits; taking a request of a batch does so exactly when the low 16
    bits of its id happen to be those of the last single post taken.
  */
  lemma PollKeepsCountIff(states: seq<SendState>, steps: seq<SendStep>, n: nat)
    requires IsRun(states, steps) && n < |steps| && steps[n].PollRc?
    ensures states[n].cq != []
    ensures var e, s := states[n].cq[0], states[n + 1];
            Pending(s.high, s.low) == s.posted - s.seen <==>
              s.posted - s.seen < 0x1_0000 && (e.no > 0 || Low16(e.userId) == Low16(states[n].seen))
  {
    assert StepsTo(states[n], steps[n], states[n + 1]);
    PendingExactIff(states, steps, n + 1);
  }

  /** A single post and a batch of one, both signaled, completed and taken by `poll_rc_comp`. */
  function MixedSteps(user: u64, id: u64): seq<SendStep> {
    [Post(user, true), PostBatch([Wr(id, true)]), Complete, Complete, PollRc, PollRc]
  }

  /** The queue pair after both posts, with this low watermark, these queues, posts taken, last read and polls. */
  function Mixed(low: u16, sq: seq<Entry>, cq: seq<Entry>, seen: nat, read: nat, polled: nat): SendState {
    SendState(1, low, Low32(2 - polled), sq, cq, 1, seen, read, [true], 2, 0, 0, polled)
  }

  function MixedStates(user: u64, id: u64): seq<SendState> {
    var wrId := EncodeWr(user, 1);
    var e, f := Entry(1, user, wrId, true), Entry(0, id, id, true);
    [START, OnePosted(e), Mixed(0, [e, f], [], 0, 0, 0), Mixed(0, [f], [e], 0, 0, 0), Mixed(0, [], [e, f], 0, 0, 0),
     Mixed(Low16(DecodeMark(wrId)), [], [f], 1, 1, 1), Mixed(Low16(DecodeMark(id)), [], [], 1, id, 2)]
  }

  function OnePosted(e: Entry): SendState {
    SendState(1, 0, 1, [e], [], 1, 0, 0, [true], 1, 0, 0, 0)
  }

  /**
    A run in which the count is wrong: everything posted has been taken, nothing
    is outstanding, and `pending_reqs` is the distance from the batch's id to the
    watermark -- 65532 for the id 5.
  */
  lemma BatchPollMiscounts(user: u64, id: u64)
    ensures IsRun(MixedStates(user, id), MixedSteps(user, id))
    ensures var s := MixedStates(user, id)[6];
            && s.sq == [] && s.cq == [] && s.posted == s.seen == s.high == 1
            && Pending(s.high, s.low) == (1 - id) % 0x1_0000
            && (Pending(s.high, s.low) == 0 <==> Low16(id) == 1)
            && (id == 5 ==> s.low == 5 && Pending(s.high, s.low) == 65532)
  {
    MixedRun(user, id);
    PendingExactIff(MixedStates(user, id), MixedSteps(user, id), 6);
    MixedEnd(user, id);
    DistanceFromOne(id);
  }

  lemma MixedRun(user: u64, id: u64)
    ensures IsRun(MixedStates(user, id), MixedSteps(user, id))
  {
    MixedPosts(user, id);
    MixedCompletes(user, id);
    MixedPolls(user, id);
  }

  lemma MixedEnd(user: u64, id: u64)
    ensures MixedStates(user, id)[6] == Mixed(Low16(id), [], [], 1, id, 2)
  {
    MaskedMark(id);
    LowLow(id);
  }

  lemma DistanceFromOne(id: u64)
    ensures (1 - id) % 0x1_0000 == 0 <==> Low16(id) == 1
    ensures id == 5 ==> Low16(id) == 5 && (1 - id) % 0x1_0000 == 65532
  {
  }

  lemma BatchOfOne(id: u64)
    ensures BatchEntries([Wr(id, true)]) == [Entry(0, id, id, true)]
    ensures CountSignaled(BatchEntries([Wr(id, true)])) == 1
    ensures CountSignaled(BatchEntries([Wr(id, true)][1..])) == 0
  {
    var q := BatchEntries([Wr(id, true)]);
    assert q == [Entry(0, id, id, true)] && q[1..] == [];
  }

  lemma MixedPosts(user: u64, id: u64)
    ensures var states, steps := MixedStates(user, id), MixedSteps(user, id);
            StepsTo(states[0], steps[0], states[1]) && StepsTo(states[1], steps[1], states[2])
  {
    FirstPost(user, 1);
    PostBehind(Entry(1, user, EncodeWr(user, 1), true), id);
  }

  lemma FirstPost(user: u64, mark: u16)
    requires mark == 1
    ensures StepsTo(START, Post(user, true), OnePosted(Entry(1, user, EncodeWr(user, mark), true)))
  {
    PostOnEmpty(START, user, mark, EncodeWr(user, mark));
    assert START.accepted + [true] == [true];
  }

  lemma PostOnEmpty(s: SendState, user: u64, mark: u16, wrId: nat)
    requires s.sq == [] && mark == Low16(s.high + 1) && wrId == EncodeWr(user, mark)
    ensures Apply(s, Post(user, true)) ==
              s.(high := mark, out := Inc(s.out), sq := [Entry(s.posted + 1, user, wrId, true)],
                 posted := s.posted + 1, accepted := s.accepted + [true], signaled := s.signaled + 1)
  {
    var e := Entry(s.posted + 1, user, wrId, true);
    assert [] + [e] == [e];
  }

  lemma PostBehind(e: Entry, id: u64)
    ensures StepsTo(OnePosted(e), PostBatch([Wr(id, true)]), Mixed(0, [e, Entry(0, id, id, true)], [], 0, 0, 0))
  {
    BatchOfOne(id);
    assert [e] + [Entry(0, id, id, true)] == [e, Entry(0, id, id, true)];
  }

  lemma MixedCompletes(user: u64, id: u64)
    ensures var states, steps := MixedStates(user, id), MixedSteps(user, id);
            StepsTo(states[2], steps[2], states[3]) && StepsTo(states[3], steps[3], states[4])
  {
  }

  lemma MixedPolls(user: u64, id: u64)
    ensures var states, steps := MixedStates(user, id), MixedSteps(user, id);
            StepsTo(states[4], steps[4], states[5]) && StepsTo(states[5], steps[5], states[6])
  {
  }

  /**
    What `poll_rc_comp` hands back, over every run: of a single post its user id
    modulo 2^48, of a batch's request its id without the low 16 bits.
  */
  lemma PolledUserId(states: seq<SendState>, steps: seq<SendStep>, n: nat)
    requires IsRun(states, steps) && n < |states| && states[n].cq != []
    ensures var e := states[n].cq[0];
            DecodeUser(e.wrId) == if e.no > 0 then User48(e.userId) else e.userId / 0x1_0000
  {
    RunMarks(states, steps, n);
    var e := Pipeline(states[n])[0];
    assert EntryOk(e, states[n].seen, states[n].posted);
    PolledMark(e, states[n].seen, states[n].posted);
  }

  // ------------------------------------------------------------ the object

  function Ids(q: seq<Entry>): (ids: seq<nat>)
    ensures |ids| == |q|
  {
    seq(|q|, i requires 0 <= i < |q| => q[i].wrId)
  }

  function Wrs(q: seq<Entry>): (wrs: seq<(nat, bool)>)
    ensures |wrs| == |q|
  {
    seq(|q|, i requires 0 <= i < |q| => (q[i].wrId, q[i].signaled))
  }

  lemma StartKept()
    ensures MarksOk(START) && CountersOk(START)
  {
    assert Pipeline(START) == [];
  }

  /** The ids and flags of a batch, as the device gets them. */
  function RawWrs(wrs: seq<Wr>): (raw: seq<(nat, bool)>)
    ensures |raw| == |wrs|
  {
    seq(|wrs|, i requires 0 <= i < |wrs| => (wrs[i].id, wrs[i].signaled))
  }

  lemma RawIsPosted(q: seq<Entry>, wrs: seq<Wr>)
    ensures Wrs(q + BatchEntries(wrs)) == Wrs(q) + RawWrs(wrs)
  {
  }

  lemma StepKept(s: SendState, step: SendStep)
    requires MarksOk(s) && CountersOk(s) && Enabled(s, step)
    ensures MarksOk(Apply(s, step)) && CountersOk(Apply(s, step))
  {
    MarksStep(s, step);
    CountersStep(s, step);
  }

  class SendQp {
    const progress: Progress
    var outSignaled: u32
    var sq: seq<(nat, bool)>   // the device's queue: ids and signal flags
    var cq: seq<nat>           // the ids of its completions
    ghost var hist: SendState

    /** The object shows the state of a run. */
    ghost predicate Valid()
      reads this, progress
    {
      && hist.high == progress.high && hist.low == progress.low && hist.out == outSignaled
      && sq == Wrs(hist.sq) && cq == Ids(hist.cq)
      && MarksOk(hist) && CountersOk(hist)
    }

    constructor ()
      ensures Valid() && hist == START && fresh(progress)
    {
      progress := new Progress();
      outSignaled, sq, cq, hist := 0, [], [], START;
      new;
      StartKept();
    }

    /** `encode_my_wr` advances the high watermark and returns the id to post. */
    method EncodeMyWr(wr: u64, num: u16) returns (id: nat)
      modifies progress
      ensures progress.high == Low16(old(progress.high) + num) && progress.low == old(progress.low)
      ensures id == EncodeWr(wr, progress.high) == (wr % 0x1_0000_0000_0000) * 0x1_0000 + progress.high
    {
      var mark := progress.Forward(num);
      EncodedSum(wr, mark);
      return EncodeWr(wr, mark);
    }

    /** The common tail of the posting calls: count the first request's flag, then ask the device. */
    method PostAll(wrs: seq<(nat, bool)>, postOk: bool) returns (ok: bool)
      requires wrs != []
      modifies `outSignaled, `sq
      ensures ok == postOk && outSignaled == Raise(old(outSignaled), wrs[0].1)
      ensures sq == if ok then old(sq) + wrs else old(sq)
    {
      if wrs[0].1 {
        outSignaled := Inc(outSignaled);
      }
      if postOk {
        sq := sq + wrs;
      }
      return postOk;
    }

    /** `execute_batch`: one step of the run, taken or refused. */
    method ExecuteBatch(wrs: seq<Wr>, postOk: bool) returns (ok: bool)
      requires Valid() && wrs != []
      modifies this
      ensures Valid() && ok == postOk
      ensures hist == Apply(old(hist), if ok then PostBatch(wrs) else RefuseBatch(wrs[0].signaled))
      ensures sq == if !ok then old(sq)
                    else old(sq) + seq(|wrs|, i requires 0 <= i < |wrs| => (wrs[i].id, wrs[i].signaled))
      ensures outSignaled == (old(outSignaled) + if wrs[0].signaled then 1 else 0) % 0x1_0000_0000
      ensures progress.high == old(progress.high) && progress.low == old(progress.low) && cq == old(cq)
    {
      ghost var step := if postOk then PostBatch(wrs) else RefuseBatch(wrs[0].signaled);
      StepKept(hist, step);
      RawIsPosted(hist.sq, wrs);
      RaiseIs(outSignaled, wrs[0].signaled);
      ok := PostAll(RawWrs(wrs), postOk);
      hist := Apply(hist, step);
    }

    /**
      `Op::execute` and `send_normal`: one step of the run; a refused post has
      moved watermark and counter all the same.
    */
    method Execute(userId: u64, flag: bool, postOk: bool) returns (ok: bool)
      requires Valid()
      modifies this, progress
      ensures Valid() && ok == postOk
      ensures hist == Apply(old(hist), if ok then Post(userId, flag) else Refuse(flag))
      ensures progress.high == (old(progress.high) + 1) % 0x1_0000 && progress.low == old(progress.low)
      ensures outSignaled == (old(outSignaled) + if flag then 1 else 0) % 0x1_0000_0000
      ensures !ok ==> sq == old(sq)
      ensures ok ==>
                && |sq| == |old(sq)| + 1 && sq[..|old(sq)|] == old(sq) && sq[|old(sq)|].1 == flag
                && sq[|old(sq)|].0 == (userId % 0x1_0000_0000_0000) * 0x1_0000 + progress.high
    {
      ghost var step := if postOk then Post(userId, flag) else Refuse(flag);
      StepKept(hist, step);
      var id := EncodeMyWr(userId, 1);
      RaiseIs(outSignaled, flag);
      ok := PostAll([(id, flag)], postOk);
      hist := Apply(hist, step);
    }

    /** The device finishes its oldest request. */
    method CompleteOne()
      requires Valid() && sq != []
      modifies this
      ensures Valid() && hist == Apply(old(hist), Complete)
      ensures sq == old(sq)[1..] && cq == if old(sq)[0].1 then old(cq) + [old(sq)[0].0] else old(cq)
    {
      StepKept(hist, Complete);
      if sq[0].1 {
        cq := cq + [sq[0].0];
      }
      sq := sq[1..];
      hist := Apply(hist, Complete);
    }

    method PollSendComp() returns (id: Option<nat>)
      requires Valid()
      modifies this
      ensures Valid()
      ensures old(cq) == [] ==> id == None && hist == old(hist)
      ensures old(cq) != [] ==>
                && id == Some(old(cq)[0]) && hist == Apply(old(hist), PollSend)
                && cq == old(cq)[1..] && outSignaled == (old(outSignaled) - 1) % 0x1_0000_0000
    {
      if cq == [] {
        return None;
      }
      StepKept(hist, PollSend);
      id := Some(cq[0]);
      outSignaled := Dec(outSignaled);
      cq := cq[1..];
      hist := Apply(hist, PollSend);
    }

    /** `poll_rc_comp`: the user id, with the low watermark moved to the mark in the completion. */
    method PollRcComp() returns (user: Option<nat>)
      requires Valid()
      modifies this, progress
      ensures Valid()
      ensures old(cq) == [] ==> user == None && hist == old(hist)
      ensures old(cq) != [] ==>
                && user == Some(old(cq)[0] / 0x1_0000) && progress.low == old(cq)[0] % 0x1_0000
                && hist == Apply(old(hist), PollRc)
                && cq == old(cq)[1..] && outSignaled == (old(outSignaled) - 1) % 0x1_0000_0000
    {
      ghost var before := hist;
      if cq != [] {
        StepKept(hist, PollRc);
      }
      var id := PollSendComp();
      if id.None? {
        return None;
      }
      MaskedMark(id.value);
      LowLow(id.value);
      progress.Done(DecodeMark(id.value));
      hist := Apply(before, PollRc);
      return Some(DecodeUser(id.value));
    }

    /** `pending_reqs`: the distance from what was read last to the single posts tried. */
    method PendingReqs() returns (n: u16)
      requires Valid()
      ensures n == (hist.posted - hist.read) % 0x1_0000
    {
      PendingIsDistance(hist.posted, hist.read);
      return Pending(progress.high, progress.low);
    }
  }
}
