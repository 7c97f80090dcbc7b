/**
  The flow-control loops of the benchmark clients.  A send queue is the list of
  posted and unreclaimed requests, oldest first, each with its signal flag; a
  completion reclaims everything up to the first signaled request.
*/
module FlowControl {
  import opened Bits

  function Max(a: nat, b: nat): nat { if a >= b then a else b }

  function Min(a: nat, b: nat): nat { if a <= b then a else b }

  /** `n` unsignaled requests. */
  function Us(n: nat): (q: seq<bool>)
    ensures |q| == n
  {
    seq(n, _ => false)
  }

  /** `wait_one_comp`; without a signaled request outstanding it would wait forever. */
  function Reclaim(q: seq<bool>): (r: seq<bool>)
    requires true in q
    ensures |r| < |q|
  {
    if q[0] then q[1..] else Reclaim(q[1..])
  }

  lemma {:induction false} ReclaimFirst(a: nat, rest: seq<bool>)
    ensures true in Us(a) + [true] + rest
    ensures Reclaim(Us(a) + [true] + rest) == rest
  {
    var q := Us(a) + [true] + rest;
    assert q[a];
    if a > 0 {
      ReclaimFirst(a - 1, rest);
      assert q[1..] == Us(a - 1) + [true] + rest;
    } else {
      assert q[1..] == rest;
    }
  }

  lemma ModStep(x: nat, k: nat)
    requires k > 0
    ensures (x + 1) % k == if x % k == k - 1 then 0 else x % k + 1
  {
    var q, r := x / k, x % k;
    assert x == k * q + r;
    if r == k - 1 {
      assert x + 1 == k * (q + 1);
      DivModUnique(x + 1, k, q + 1, 0);
    } else {
      DivModUnique(x + 1, k, q, r + 1);
    }
  }

  // ------------------------------------------------- signaling every k-th

  /**
    The queue before post `i` of a round that began with `left` unsignaled
    leftovers, when every k-th post is signaled; `j` is the loop's own counter.
  */
  ghost predicate Shape(q: seq<bool>, j: nat, i: nat, k: nat, left: nat)
    requires k > 0
  {
    if i == 0 then j == 0 && q == Us(left)
    else
      && 1 <= j <= k && j - 1 == (i - 1) % k
      && q == Us(if i <= k then left else k - 1) + [true] + Us(j - 1)
  }

  /** The queue length right after post `i`. */
  function SizeAt(i: nat, k: nat, left: nat): nat
    requires k > 0
  {
    if i <= k then left + i + 1 else k + (i - 1) % k + 1
  }

  /** One pass of the loop body: post, and wait when the post is signaled and not the round's first. */
  lemma RoundStep(q: seq<bool>, j: nat, i: nat, k: nat, left: nat)
    requires k > 0 && left < k && Shape(q, j, i, k, left)
    ensures var flag := j == 0 || j >= k;
            var posted := q + [flag];
            && |posted| == SizeAt(i, k, left)
            && (flag && i > 0 ==> true in posted)
            && Shape(if flag && i > 0 then Reclaim(posted) else posted, if flag then 1 else j + 1, i + 1, k, left)
  {
    var flag := j == 0 || j >= k;
    var posted := q + [flag];
    if i == 0 {
      assert posted == Us(left) + [true] + Us(0);
      ModZero(k);
    } else {
      var a := if i <= k then left else k - 1;
      ModStep(i - 1, k);
      SmallMod(i - 1, k);
      if flag {
        ReclaimFirst(a, Us(k - 1) + [true]);
        assert posted == Us(a) + [true] + (Us(k - 1) + [true]);
        assert Us(k - 1) + [true] == Us(k - 1) + [true] + Us(0);
        SmallMod(i, k);
      } else {
        assert posted == Us(a) + [true] + Us(j);
        assert i != k;
      }
    }
  }

  lemma ModZero(k: nat)
    requires k > 0
    ensures 0 % k == 0
  {
  }

  lemma SmallMod(x: nat, k: nat)
    requires k > 0
    ensures x < k ==> x % k == x
    ensures x == k ==> x % k == 0
  {
  }

  /** The final wait of a round finds a signaled request and leaves only unsignaled ones. */
  lemma RoundEnd(q: seq<bool>, j: nat, n: nat, k: nat, left: nat)
    requires k > 0 && n > 0 && Shape(q, j, n, k, left)
    ensures true in q && Reclaim(q) == Us((n - 1) % k)
  {
    ReclaimFirst(if n <= k then left else k - 1, Us(j - 1));
  }

  /** The longest queue during the first `n` posts of a round. */
  function PeakOf(n: nat, k: nat, left: nat): nat
    requires k > 0
  {
    if n == 0 then 0 else Max(PeakOf(n - 1, k, left), SizeAt(n - 1, k, left))
  }

  /** It is reached at the second signal of the round, or, in long rounds, at every later one. */
  lemma {:induction false} PeakClosed(n: nat, k: nat, left: nat)
    requires k > 0 && n > 0 && left < k
    ensures PeakOf(n, k, left) ==
      Max(left + Min(n, k + 1), if n > k + 1 then k + Min(n - k - 1, k) else 0)
  {
    if n > 1 {
      PeakClosed(n - 1, k, left);
      if n > k + 1 {
        LateSize(n - 1, k, left);
      }
    }
  }

  lemma LateSize(i: nat, k: nat, left: nat)
    requires k > 0 && i > k
    ensures SizeAt(i, k, left) <= 2 * k
    ensures i <= 2 * k ==> SizeAt(i, k, left) == i
  {
  }

  /** Exact peak over `rounds` rounds: from the second round on, the previous round's leftovers count. */
  function Peak(n: nat, k: nat, rounds: nat): nat
    requires k > 0 && n > 0
  {
    if rounds == 0 then 0 else if rounds == 1 then PeakOf(n, k, 0) else PeakOf(n, k, (n - 1) % k)
  }

  lemma {:induction false} PeakMonotone(n: nat, k: nat, left: nat)
    requires k > 0
    ensures PeakOf(n, k, 0) <= PeakOf(n, k, left)
  {
    if n > 0 {
      PeakMonotone(n - 1, k, left);
    }
  }

  /** At most 2k, reached by every run of at least one round of more than 2k posts. */
  lemma PeakBound(n: nat, k: nat, rounds: nat)
    requires k > 0 && n > 0
    ensures Peak(n, k, rounds) <= 2 * k
    ensures rounds > 0 && n > 2 * k ==> Peak(n, k, rounds) == 2 * k
  {
    PeakClosed(n, k, 0);
    PeakClosed(n, k, (n - 1) % k);
  }

  /** One round of the one-request loop, without its final wait. */
  method OrRound(orFactor: nat, orMax: nat, q: seq<bool>, peak0: nat) returns (sq: seq<bool>, orIdx: nat, peak: nat)
    requires orMax > 0 && |q| < orMax && q == Us(|q|)
    ensures Shape(sq, orIdx, orFactor, orMax, |q|)
    ensures peak == Max(peak0, PeakOf(orFactor, orMax, |q|))
  {
    sq, orIdx, peak := q, 0, peak0;
    for i := 0 to orFactor
      invariant Shape(sq, orIdx, i, orMax, |q|)
      invariant peak == Max(peak0, PeakOf(i, orMax, |q|))
    {
      RoundStep(sq, orIdx, i, orMax, |q|);
      var flag := false;
      if orIdx == 0 || orIdx >= orMax {
        flag := true;
        orIdx := 0;
      }
      sq := sq + [flag];
      peak := Max(peak, |sq|);
      if flag && i != 0 {
        sq := Reclaim(sq);
      }
      orIdx := orIdx + 1;
    }
  }

  /**
    The one-request loop: `orFactor` posts a round, half the send queue between
    signals.  Every wait finds a signaled request, and the peak is exact.
  */
  method OrBench(orFactor: nat, maxSend: nat, rounds: nat) returns (peak: nat)
    requires orFactor >= 1 && maxSend >= 2
    ensures peak == Peak(orFactor, maxSend / 2, rounds)
    ensures peak <= 2 * (maxSend / 2) <= maxSend
  {
    var orMax := maxSend / 2;
    var sq: seq<bool> := [];
    peak := 0;
    for round := 0 to rounds
      invariant sq == Us(if round == 0 then 0 else (orFactor - 1) % orMax)
      invariant peak == Peak(orFactor, orMax, round)
    {
      ghost var left := |sq|;
      var orIdx;
      sq, orIdx, peak := OrRound(orFactor, orMax, sq, peak);
      RoundEnd(sq, orIdx, orFactor, orMax, left);
      sq := Reclaim(sq);
      PeakMonotone(orFactor, orMax, left);
    }
    PeakBound(orFactor, orMax, rounds);
  }

  // ------------------------------------------------------------- batches

  /** A queue of batches of `d` as requests: all unsignaled but the last of each, which has the batch's flag. */
  function Flatten(batches: seq<bool>, d: nat): (q: seq<bool>)
    requires d > 0
  {
    if batches == [] then [] else Us(d - 1) + [batches[0]] + Flatten(batches[1..], d)
  }

  /** The requests of `n` batches. */
  function Requests(n: nat, d: nat): nat {
    if n == 0 then 0 else Requests(n - 1, d) + d
  }

  lemma {:induction false} RequestsTimes(n: nat, d: nat)
    ensures Requests(n, d) == d * n
  {
    if n > 0 {
      RequestsTimes(n - 1, d);
    }
  }

  lemma {:induction false} RequestsMonotone(a: nat, b: nat, d: nat)
    requires a <= b
    ensures Requests(a, d) <= Requests(b, d)
  {
    if a < b {
      RequestsMonotone(a, b - 1, d);
    }
  }

  lemma {:induction false} FlattenSize(batches: seq<bool>, d: nat)
    requires d > 0
    ensures |Flatten(batches, d)| == Requests(|batches|, d)
  {
    if batches != [] {
      FlattenSize(batches[1..], d);
    }
  }

  lemma {:induction false} FlattenAppend(batches: seq<bool>, flag: bool, d: nat)
    requires d > 0
    ensures Flatten(batches + [flag], d) == Flatten(batches, d) + Us(d - 1) + [flag]
  {
    if batches == [] {
      assert batches + [flag] == [flag];
    } else {
      FlattenAppend(batches[1..], flag, d);
      assert (batches + [flag])[1..] == batches[1..] + [flag];
    }
  }

  lemma {:induction false} ReclaimSkips(a: nat, q: seq<bool>)
    requires true in q
    ensures true in Us(a) + q && Reclaim(Us(a) + q) == Reclaim(q)
  {
    if a == 0 {
      assert Us(0) + q == q;
    } else {
      ReclaimSkips(a - 1, q);
      assert (Us(a) + q)[1..] == Us(a - 1) + q;
      assert (Us(a) + q)[0] == false;
      var i :| 0 <= i < |q| && q[i];
      assert (Us(a) + q)[a + i];
    }
  }

  /** A completion reclaims whole batches, since the signaled request is the last of its batch. */
  lemma {:induction false} ReclaimBatches(batches: seq<bool>, d: nat)
    requires d > 0 && true in batches
    ensures true in Flatten(batches, d)
    ensures Reclaim(Flatten(batches, d)) == Flatten(Reclaim(batches), d)
  {
    var rest := Flatten(batches[1..], d);
    assert Flatten(batches, d) == Us(d - 1) + ([batches[0]] + rest);
    if batches[0] {
      assert ([true] + rest)[0];
      ReclaimSkips(d - 1, [true] + rest);
    } else {
      assert true in batches[1..];
      ReclaimBatches(batches[1..], d);
      assert Us(d - 1) + ([false] + rest) == Us(d) + rest;
      ReclaimSkips(d, rest);
    }
  }

  /** Batches of `d` between two signals: half the send queue, rounded up to whole batches, at least one. */
  function BatchesPerSignal(maxSend: nat, d: nat): (k: nat)
    requires d > 0
    ensures k > 0
  {
    Max(1, (maxSend / 2 + d - 1) / d)
  }

  /** A number of whole batches reaches `m` requests exactly when it reaches `m / d` rounded up. */
  lemma RoundedUp(j: nat, m: nat, d: nat)
    requires d > 0
    ensures Requests(j, d) >= m <==> j >= (m + d - 1) / d
  {
    var c, r := (m + d - 1) / d, (m + d - 1) % d;
    assert m + d - 1 == d * c + r;
    RequestsTimes(c, d);
    if j >= c {
      RequestsMonotone(c, j, d);
    } else {
      RequestsMonotone(j, c - 1, d);
    }
  }

  /** The loop's test on its request counter signals every k-th batch. */
  ghost predicate SignalsEvery(k: nat, orMax: nat, d: nat) {
    k > 0 && forall j: nat :: (Requests(j, d) == 0 || Requests(j, d) >= orMax) <==> (j == 0 || j >= k)
  }

  lemma SignalCondition(maxSend: nat, d: nat)
    requires d > 0
    ensures SignalsEvery(BatchesPerSignal(maxSend, d), maxSend / 2, d)
  {
    var k, m := BatchesPerSignal(maxSend, d), maxSend / 2;
    forall j: nat ensures (Requests(j, d) == 0 || Requests(j, d) >= m) <==> (j == 0 || j >= k) {
      RoundedUp(j, m, d);
      if j > 0 {
        RequestsMonotone(1, j, d);
      }
    }
  }

  /** One pass of the doorbell loop's body, on batches and on the requests they stand for. */
  lemma BatchStep(batches: seq<bool>, j: nat, b: nat, k: nat, left: nat, flag: bool, d: nat)
    returns (next: seq<bool>, j': nat)
    requires d > 0 && k > 0 && left < k && Shape(batches, j, b, k, left) && flag == (j == 0 || j >= k)
    ensures var posted := Flatten(batches, d) + Us(d - 1) + [flag];
            && |posted| == Requests(SizeAt(b, k, left), d)
            && j' == (if flag then 1 else j + 1) && Shape(next, j', b + 1, k, left)
            && if flag && b > 0 then true in posted && Reclaim(posted) == Flatten(next, d)
               else posted == Flatten(next, d)
  {
    RoundStep(batches, j, b, k, left);
    FlattenAppend(batches, flag, d);
    next, j' := batches + [flag], if flag then 1 else j + 1;
    FlattenSize(next, d);
    if flag && b > 0 {
      ReclaimBatches(next, d);
      next := Reclaim(next);
    }
  }

  /** Post one batch, signaled where due, and wait when it is signaled and not the round's first. */
  method DbPost(q: seq<bool>, orIdx0: nat, first: bool, orMax: nat, d: nat,
                ghost batches: seq<bool>, ghost j: nat, ghost b: nat, ghost k: nat, ghost left: nat)
    returns (sq: seq<bool>, orIdx: nat, size: nat, ghost next: seq<bool>, ghost j': nat)
    requires d > 0 && SignalsEvery(k, orMax, d) && left < k && Shape(batches, j, b, k, left)
    requires q == Flatten(batches, d) && orIdx0 == Requests(j, d) && (first <==> b == 0)
    ensures size == Requests(SizeAt(b, k, left), d)
    ensures sq == Flatten(next, d) && Shape(next, j', b + 1, k, left) && orIdx == Requests(j', d)
  {
    orIdx := orIdx0;
    var flag := false;
    if orIdx == 0 || orIdx >= orMax {
      flag := true;
      orIdx := 0;
    }
    next, j' := BatchStep(batches, j, b, k, left, flag, d);
    sq := q + Us(d - 1) + [flag];
    size := |sq|;
    if flag && !first {
      sq := Reclaim(sq);
    }
    orIdx := orIdx + d;
  }

  lemma MaxRequests(a: nat, b: nat, d: nat)
    ensures Max(Requests(a, d), Requests(b, d)) == Requests(Max(a, b), d)
  {
    RequestsMonotone(Min(a, b), Max(a, b), d);
  }

  lemma PeakGrows(peak0: nat, b: nat, k: nat, left: nat, d: nat)
    requires k > 0
    ensures Max(Max(peak0, Requests(PeakOf(b, k, left), d)), Requests(SizeAt(b, k, left), d))
              == Max(peak0, Requests(PeakOf(b + 1, k, left), d))
  {
    MaxRequests(PeakOf(b, k, left), SizeAt(b, k, left), d);
  }

  /** One round of the doorbell loop, without its final wait. */
  method DbRound(orFactor: nat, orMax: nat, d: nat, q: seq<bool>, peak0: nat, ghost n: nat, ghost k: nat,
                 ghost left: nat)
    returns (sq: seq<bool>, peak: nat, ghost batches: seq<bool>, ghost j: nat)
    requires d > 0 && orFactor == Requests(n, d) && SignalsEvery(k, orMax, d) && left < k && q == Flatten(Us(left), d)
    ensures sq == Flatten(batches, d) && Shape(batches, j, n, k, left)
    ensures peak == Max(peak0, Requests(PeakOf(n, k, left), d))
  {
    sq, peak, batches, j := q, peak0, Us(left), 0;
    var orIdx, i := 0, 0;
    ghost var b := 0;
    while i < orFactor
      invariant b <= n && i == Requests(b, d) && orIdx == Requests(j, d)
      invariant Shape(batches, j, b, k, left) && sq == Flatten(batches, d)
      invariant peak == Max(peak0, Requests(PeakOf(b, k, left), d))
      decreases orFactor - i
    {
      var size;
      sq, orIdx, size, batches, j := DbPost(sq, orIdx, i == 0, orMax, d, batches, j, b, k, left);
      PeakGrows(peak0, b, k, left, d);
      peak := Max(peak, size);
      i := i + d;
      b := b + 1;
    }
    if b < n {
      RequestsMonotone(b + 1, n, d);
    }
  }

  /** The rounds of the doorbell loop; a round begins with the leftovers of the one before. */
  method DbRounds(orFactor: nat, orMax: nat, rounds: nat, d: nat, ghost n: nat, ghost k: nat) returns (peak: nat)
    requires d > 0 && n > 0 && orFactor == Requests(n, d) && SignalsEvery(k, orMax, d)
    ensures peak == Requests(Peak(n, k, rounds), d)
  {
    var sq: seq<bool> := [];
    ghost var left := 0;
    peak := 0;
    for round := 0 to rounds
      invariant left == (if round == 0 then 0 else (n - 1) % k) && sq == Flatten(Us(left), d)
      invariant peak == Requests(Peak(n, k, round), d)
    {
      ghost var batches, j;
      sq, peak, batches, j := DbRound(orFactor, orMax, d, sq, peak, n, k, left);
      RoundEnd(batches, j, n, k, left);
      ReclaimBatches(batches, d);
      sq := Reclaim(sq);
      PeakMonotone(n, k, left);
      MaxRequests(Peak(n, k, round), PeakOf(n, k, left), d);
      left := (n - 1) % k;
    }
  }

  /**
    The doorbell loop for batches of `d`: the last request of each carries the
    flag.  The peak is exact, and at most twice half the send queue rounded up to
    whole batches; the send queue holds out exactly when the peak is at most
    `maxSend`.  The benchmark has `d == 10`.
  */
  method DbBench(orFactor: nat, maxSend: nat, rounds: nat, d: nat) returns (peak: nat)
    requires d > 0 && orFactor > d && orFactor % d == 0
    ensures peak == d * Peak(orFactor / d, BatchesPerSignal(maxSend, d), rounds)
    ensures peak <= d * (2 * BatchesPerSignal(maxSend, d))
  {
    ghost var n, k := orFactor / d, BatchesPerSignal(maxSend, d);
    RequestsTimes(n, d);
    SignalCondition(maxSend, d);
    peak := DbRounds(orFactor, maxSend / 2, rounds, d, n, k);
    RequestsTimes(Peak(n, k, rounds), d);
    PeakBound(n, k, rounds);
    RequestsMonotone(Peak(n, k, rounds), 2 * k, d);
    RequestsTimes(2 * k, d);
  }

  /** The doorbell loop fits its send queue if and only if this closed form does. */
  lemma DbFitsIff(n: nat, maxSend: nat, rounds: nat, d: nat)
    requires d > 0 && n > 1 && rounds >= 1
    ensures var k := BatchesPerSignal(maxSend, d);
            var left := if rounds == 1 then 0 else (n - 1) % k;
            d * Peak(n, k, rounds) <= maxSend <==>
              && d * (left + Min(n, k + 1)) <= maxSend
              && (n > k + 1 ==> d * (k + Min(n - k - 1, k)) <= maxSend)
  {
    var k := BatchesPerSignal(maxSend, d);
    var left := if rounds == 1 then 0 else (n - 1) % k;
    PeakClosed(n, k, left);
    var early, late := left + Min(n, k + 1), if n > k + 1 then k + Min(n - k - 1, k) else 0;
    MaxRequests(early, late, d);
    RequestsTimes(early, d);
    RequestsTimes(late, d);
    RequestsTimes(Max(early, late), d);
  }

  /** With the default queue of 128, rounds of 70 requests need 130 places from the second round on. */
  lemma DefaultQueueOverflows(rounds: nat)
    requires rounds >= 2
    ensures 10 * Peak(70 / 10, BatchesPerSignal(128, 10), rounds) == 130
  {
    PeakClosed(7, 7, 6);
  }

  /** The defaults of the benchmark itself, 50 requests a round, stay within it. */
  lemma DefaultFactorFits(rounds: nat)
    ensures 10 * Peak(50 / 10, BatchesPerSignal(128, 10), rounds) <= 128
  {
    PeakClosed(5, 7, 4);
    PeakClosed(5, 7, 0);
  }

  // ------------------------------------------------------- sliding window

  function SubU64(a: nat, b: nat): nat {
    (a - b) % 0x1_0000_0000_0000_0000
  }

  /**
    One round of the sliding window as the loop computes it: the requests it
    believes in flight, how many it posts, and the two counters after posting
    and after polling.
  */
  datatype Round = Round(flying: nat, posted: nat, counter: nat, recvCnt: nat)

  /** Completions received before round `r`. */
  function RecvBefore(log: seq<Round>, r: nat): nat
    requires r <= |log|
  {
    if r == 0 then 0 else log[r - 1].recvCnt
  }

  /** The first `n` polls of round `r` that would find a completion. */
  function Hits(polls: (nat, nat) -> bool, r: nat, n: nat): nat {
    if n == 0 then 0 else Hits(polls, r, n - 1) + if polls(r, n - 1) then 1 else 0
  }

  /**
    Round `r` of the log: neither unsigned subtraction wraps, posting refills the
    window exactly, and polling takes what it finds of what is in flight.
  */
  ghost predicate RoundOk(log: seq<Round>, r: nat, paraFactor: nat, tryRounds: nat, polls: (nat, nat) -> bool)
    requires r < |log|
  {
    var before, e := RecvBefore(log, r), log[r];
    && e.flying <= paraFactor && e.posted == paraFactor - e.flying == SubU64(paraFactor, e.flying)
    && e.counter == before + paraFactor
    && e.counter == e.posted + (if r == 0 then 0 else log[r - 1].counter)
    && e.recvCnt == before + Min(paraFactor, Hits(polls, r, tryRounds)) <= e.counter
    && (r + 1 < |log| ==> log[r + 1].flying == e.counter - e.recvCnt == SubU64(e.counter, e.recvCnt))
  }

  /** The posting phase of a round. */
  method FlyPost(paraFactor: nat, flying: nat, counter0: nat, recvCnt: nat)
    returns (counter: nat, posted: nat, peak: nat)
    requires flying == counter0 - recvCnt <= paraFactor < 0x1_0000_0000_0000_0000
    ensures posted == paraFactor - flying && counter == counter0 + posted
    ensures peak == paraFactor
  {
    counter, posted, peak := counter0, 0, flying;
    while posted < SubU64(paraFactor, flying)
      invariant posted <= paraFactor - flying && counter == counter0 + posted
      invariant peak == counter - recvCnt
    {
      counter := counter + 1;
      posted := posted + 1;
      peak := Max(peak, counter - recvCnt);
    }
  }

  /** The polling phase of a round. */
  method FlyPoll(counter: nat, recvCnt0: nat, tryRounds: nat, polls: (nat, nat) -> bool, round: nat)
    returns (recvCnt: nat)
    requires recvCnt0 <= counter
    ensures recvCnt == recvCnt0 + Min(counter - recvCnt0, Hits(polls, round, tryRounds))
  {
    recvCnt := recvCnt0;
    for i := 0 to tryRounds
      invariant recvCnt == recvCnt0 + Min(counter - recvCnt0, Hits(polls, round, i))
    {
      if recvCnt < counter && polls(round, i) {
        recvCnt := recvCnt + 1;
      }
    }
  }

  /** The drain: `gaps(c)` is the number of empty polls before its completion `c`. */
  method FlyDrain(counter: nat, recvCnt0: nat, gaps: nat -> nat) returns (recvCnt: nat)
    requires recvCnt0 <= counter
    ensures recvCnt == counter
  {
    recvCnt := recvCnt0;
    var waited := 0;
    while recvCnt < counter
      invariant recvCnt <= counter && waited <= gaps(recvCnt)
      decreases counter - recvCnt, gaps(recvCnt) - waited
    {
      if waited < gaps(recvCnt) {
        waited := waited + 1;
      } else {
        recvCnt, waited := recvCnt + 1, 0;
      }
    }
  }

  /**
    The sliding-window loop and its drain, with the record of every round.
    `polls(r, i)` says whether poll `i` of round `r` finds a completion if one is
    in flight.  Nothing is ever in flight beyond the window.
  */
  method FlyBench(paraFactor: nat, rounds: nat, tryRounds: nat, polls: (nat, nat) -> bool, gaps: nat -> nat)
    returns (log: seq<Round>, counter: nat, recvCnt: nat, maxFlying: nat)
    requires paraFactor < 0x1_0000_0000_0000_0000
    ensures |log| == rounds && forall r: nat | r < rounds :: RoundOk(log, r, paraFactor, tryRounds, polls)
    ensures recvCnt == counter == if rounds == 0 then 0 else log[rounds - 1].counter
    ensures maxFlying == if rounds == 0 then 0 else paraFactor
  {
    var flyingCnt := 0;
    log, counter, recvCnt, maxFlying := [], 0, 0, 0;
    for round := 0 to rounds
      invariant |log| == round && forall r: nat | r < round :: RoundOk(log, r, paraFactor, tryRounds, polls)
      invariant recvCnt == RecvBefore(log, round)
      invariant counter == if round == 0 then 0 else log[round - 1].counter
      invariant recvCnt <= counter && flyingCnt == counter - recvCnt <= paraFactor
      invariant round > 0 ==> flyingCnt == SubU64(counter, recvCnt)
      invariant maxFlying == if round == 0 then 0 else paraFactor
    {
      var c, posted, peak := FlyPost(paraFactor, flyingCnt, counter, recvCnt);
      var received := FlyPoll(c, recvCnt, tryRounds, polls, round);
      var log' := log + [Round(flyingCnt, posted, c, received)];
      RoundsKept(log, log', paraFactor, tryRounds, polls);
      log, counter, recvCnt := log', c, received;
      maxFlying := Max(maxFlying, peak);
      flyingCnt := SubU64(counter, recvCnt);
    }
    recvCnt := FlyDrain(counter, recvCnt, gaps);
  }

  /** One more round on the log, begun with the difference of the counters, leaves the earlier ones right. */
  lemma RoundsKept(log: seq<Round>, log': seq<Round>, paraFactor: nat, tryRounds: nat, polls: (nat, nat) -> bool)
    requires |log'| == |log| + 1 && log' == log + [log'[|log|]]
    requires forall r: nat | r < |log| :: RoundOk(log, r, paraFactor, tryRounds, polls)
    requires |log| > 0 ==> var e := log[|log| - 1];
                           log'[|log|].flying == e.counter - e.recvCnt == SubU64(e.counter, e.recvCnt)
    ensures forall r: nat | r < |log| :: RoundOk(log', r, paraFactor, tryRounds, polls)
  {
    forall r: nat | r < |log| ensures RoundOk(log', r, paraFactor, tryRounds, polls) {
      assert RoundOk(log, r, paraFactor, tryRounds, polls);
    }
  }
}
