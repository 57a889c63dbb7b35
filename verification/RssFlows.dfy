/** Queue selection and the greedy choice of flows of usertools/dpdk-rss-flows.py. */
module RssFlows {
  import opened RssHash

  // ---------- packets ----------

  datatype Packet = Packet(src: seq<Octet>, dst: seq<Octet>, sport: seq<Octet>, dport: seq<Octet>) {
    function Reverse(): Packet { Packet(dst, src, dport, sport) }

    function HashData(useL4Port: bool): seq<Octet> {
      src + dst + if useL4Port then sport + dport else []
    }
  }

  /** A reversed packet hashes destination before source, for addresses and ports alike; reversing
      twice changes nothing. */
  lemma ReverseSwaps(p: Packet)
    ensures p.HashData(false) == p.src + p.dst && p.Reverse().HashData(false) == p.dst + p.src
    ensures p.HashData(true) == p.HashData(false) + (p.sport + p.dport)
    ensures p.Reverse().HashData(true) == p.Reverse().HashData(false) + (p.dport + p.sport)
    ensures p.Reverse().Reverse() == p
  {
  }

  // ---------- queues ----------

  datatype RSSAlgo = RSSAlgo(queuesCount: nat, key: seq<Octet>, reta: seq<nat>, useL4Port: bool)

  function Pow2(k: nat): (r: nat)
    ensures r > 0
  {
    if k == 0 then 1 else 2 * Pow2(k - 1)
  }

  /** The number with these bits. */
  function Value(bits: seq<bool>): nat {
    if bits == [] then 0 else 2 * Value(bits[..|bits| - 1]) + if bits[|bits| - 1] then 1 else 0
  }

  function And(a: Word, b: Word): Word { seq(32, k requires 0 <= k < 32 => a[k] && b[k]) }

  /** The low k bits of 2^k - 1 as far as a 32-bit hash can meet them. */
  function Mask(k: nat): Word {
    seq(32, i => i + k >= 32)
  }

  /** The constructor of RSSAlgo: table sizes are powers of two. */
  function NewAlgo(queuesCount: nat, key: seq<Octet>, retaBits: nat, useL4Port: bool): RSSAlgo
    requires queuesCount > 0
  {
    RSSAlgo(queuesCount, key, seq(Pow2(retaBits), i requires 0 <= i => i % queuesCount), useL4Port)
  }

  ghost predicate IsAlgo(algo: RSSAlgo, retaBits: nat) {
    algo.queuesCount > 0 && algo == NewAlgo(algo.queuesCount, algo.key, retaBits, algo.useL4Port)
  }

  /** A word without bits above the low k is below 2^k. */
  lemma {:induction false} ValueBelow(bits: seq<bool>, k: nat)
    requires forall i :: 0 <= i < |bits| && bits[i] ==> i + k >= |bits|
    ensures Value(bits) < Pow2(k)
  {
    if bits != [] {
      var front := bits[..|bits| - 1];
      if k == 0 {
        ValueBelow(front, 0);
      } else {
        ValueBelow(front, k - 1);
      }
    }
  }

  /** Value is positional notation: putting digits behind others shifts these to the left. */
  lemma {:induction false} ValueConcat(a: seq<bool>, b: seq<bool>)
    ensures Value(a + b) == Value(a) * Pow2(|b|) + Value(b)
    ensures Value([true]) == 1 && Value([false]) == 0
  {
    assert Value([true]) == 2 * Value([true][..0]) + 1 && Value([false]) == 2 * Value([false][..0]);
    if b == [] {
      assert a + b == a;
    } else {
      var front := b[..|b| - 1];
      ValueConcat(a, front);
      assert (a + b)[..|a + b| - 1] == a + front;
      Doubled(Value(a), Pow2(|front|));
    }
  }

  lemma Doubled(x: nat, p: nat)
    ensures x * (2 * p) == 2 * (x * p)
  {
  }

  lemma {:induction false} ValueZeros(n: nat)
    ensures Value(Zeros(n)) == 0
  {
    if n > 0 {
      ValueZeros(n - 1);
      assert Zeros(n)[..n - 1] == Zeros(n - 1);
    }
  }

  lemma Remainder(v: nat, h: nat, p: nat, l: nat)
    requires l < p && v == h * p + l
    ensures v % p == l
  {
    var d := v / p - h;
    assert v == v / p * p + v % p;
    assert d * p == l - v % p;
    Unit(d, p);
  }

  lemma Unit(d: int, p: nat)
    requires d * p < p && -(d * p) < p
    ensures d == 0
  {
  }

  /** The low digits are the remainder by their power of two. */
  lemma LowDigits(high: seq<bool>, low: seq<bool>)
    ensures Value(high + low) % Pow2(|low|) == Value(low)
  {
    ValueBelow(low, |low|);
    ValueConcat(high, low);
    Remainder(Value(high + low), Value(high), Pow2(|low|), Value(low));
  }

  lemma LeadingZeros(n: nat, bits: seq<bool>)
    ensures Value(Zeros(n) + bits) == Value(bits)
  {
    ValueConcat(Zeros(n), bits);
    ValueZeros(n);
  }

  /** Masking takes the remainder by the table size. */
  lemma MaskIsRemainder(w: Word, k: nat)
    ensures Value(And(w, Mask(k))) == Value(w) % Pow2(k)
  {
    if k <= 32 {
      MaskLow(w, k);
    } else {
      MaskAll(w, k);
    }
  }

  lemma MaskLow(w: Word, k: nat)
    requires k <= 32
    ensures Value(And(w, Mask(k))) == Value(w) % Pow2(k)
  {
    var high, low := w[..32 - k], w[32 - k..];
    Masked(w, k);
    LeadingZeros(32 - k, low);
    LowDigits(high, low);
    assert |low| == k;
  }

  lemma MaskAll(w: Word, k: nat)
    requires k > 32
    ensures Value(And(w, Mask(k))) == Value(w) % Pow2(k)
  {
    ValueBelow(w, k);
    assert And(w, Mask(k)) == w;
    Remainder(Value(w), 0, Pow2(k), Value(w));
  }

  lemma Masked(w: Word, k: nat)
    requires k <= 32
    ensures And(w, Mask(k)) == Zeros(32 - k) + w[32 - k..] && w[..32 - k] + w[32 - k..] == w
  {
    var masked := And(w, Mask(k));
    forall i | 0 <= i < 32 ensures masked[i] == (Zeros(32 - k) + w[32 - k..])[i] {
    }
  }

  /** The k-digit notation of a number. */
  function Digits(n: nat, k: nat): (bits: seq<bool>)
    requires n < Pow2(k)
    ensures |bits| == k && Value(bits) == n
  {
    if k == 0 then [] else
      var bits := Digits(n / 2, k - 1) + [n % 2 == 1];
      assert bits[..k - 1] == Digits(n / 2, k - 1);
      bits
  }

  /** Every offset of a table of up to 2^32 entries is the remainder of some hash. */
  lemma OffsetReached(k: nat, offset: nat) returns (w: Word)
    requires k <= 32 && offset < Pow2(k)
    ensures Value(w) % Pow2(k) == offset
  {
    var bits := Digits(offset, k);
    w := Zeros(32 - k) + bits;
    LowDigits(Zeros(32 - k), bits);
  }

  /** Every table offset names a queue, and a table no smaller than the queue count names them all. */
  lemma RetaCovers(algo: RSSAlgo, retaBits: nat, q: nat)
    requires IsAlgo(algo, retaBits)
    ensures q in algo.reta <==> q < algo.queuesCount && q < |algo.reta|
  {
    RetaNames(algo.reta, algo.queuesCount, q);
  }

  lemma RetaNames(reta: seq<nat>, n: nat, q: nat)
    requires n > 0 && forall i :: 0 <= i < |reta| ==> reta[i] == i % n
    ensures q in reta <==> q < n && q < |reta|
  {
    if q < n && q < |reta| {
      assert reta[q] == q;
    } else if q in reta {
      var i :| 0 <= i < |reta| && reta[i] == q;
      ModBelow(i, n);
      assert false;
    }
  }

  lemma ModBelow(i: nat, n: nat)
    requires n > 0
    ensures i % n < n && i % n <= i
  {
    assert i == i / n * n + i % n;
  }

  /** No queue is out of reach: some hash leads to it, if the table is no smaller than the queue count. */
  lemma QueueReached(algo: RSSAlgo, retaBits: nat, q: nat) returns (w: Word)
    requires IsAlgo(algo, retaBits) && retaBits <= 32 && q < algo.queuesCount <= |algo.reta|
    ensures algo.reta[Value(w) % |algo.reta|] == q
  {
    w := OffsetReached(retaBits, q);
    EntryAt(algo.reta, algo.queuesCount, Value(w) % |algo.reta|, q);
  }

  lemma EntryAt(reta: seq<nat>, n: nat, offset: nat, q: nat)
    requires offset == q < n && q < |reta| && reta[q] == q % n
    ensures reta[offset] == q
  {
  }

  /** The queue of a packet, where its hash is defined. */
  function Queue(algo: RSSAlgo, retaBits: nat, pkt: Packet): (r: Option<nat>)
    requires IsAlgo(algo, retaBits)
    ensures r.Some? ==> r.value < algo.queuesCount
    ensures r.Some? <==> Covers(algo.key, pkt.HashData(algo.useL4Port), 8 * |pkt.HashData(algo.useL4Port)|)
    ensures r.Some? ==> var data := pkt.HashData(algo.useL4Port);
      r.value == algo.reta[Value(Toeplitz(algo.key, data, 8 * |data|)) % |algo.reta|]
  {
    var data := pkt.HashData(algo.useL4Port);
    if Covers(algo.key, data, 8 * |data|) then
      var offset := Value(And(Toeplitz(algo.key, data, 8 * |data|), Mask(retaBits)));
      MaskIsRemainder(Toeplitz(algo.key, data, 8 * |data|), retaBits);
      Some(algo.reta[offset])
    else None
  }

  method GetQueueIndex(algo: RSSAlgo, retaBits: nat, pkt: Packet) returns (q: Option<nat>)
    requires IsAlgo(algo, retaBits)
    ensures q == Queue(algo, retaBits, pkt)
    ensures q.Some? ==> var data := pkt.HashData(algo.useL4Port);
      q.value == algo.reta[Value(Toeplitz(algo.key, data, 8 * |data|)) % |algo.reta|]
  {
    var hash := ToeplitzHash(algo.key, pkt.HashData(algo.useL4Port));
    if hash.None? {
      return None;
    }
    var offset := Value(And(hash.value, Mask(retaBits)));
    MaskIsRemainder(hash.value, retaBits);
    q := Some(algo.reta[offset]);
  }

  // ---------- the greedy choice ----------

  datatype Flow = Flow(q: nat, qr: nat, pkt: Packet)

  /** How the generator ended: it saw the whole template, stopped early with all queues filled, or
      a hash ran over the end of the key. */
  datatype Stop = Exhausted | Filled | KeyError

  predicate DistinctQueues(flows: seq<Flow>) {
    forall i, j :: 0 <= i < j < |flows| ==> flows[i].q != flows[j].q
  }

  predicate DistinctReverse(flows: seq<Flow>) {
    forall i, j :: 0 <= i < j < |flows| ==> flows[i].qr != flows[j].qr
  }

  function Queues(flows: seq<Flow>): set<nat> { set f | f in flows :: f.q }

  function ReverseQueues(flows: seq<Flow>): set<nat> { set f | f in flows :: f.qr }

  /** Flow f is template packet i with its two queues. */
  predicate FlowAt(algo: RSSAlgo, retaBits: nat, pkts: seq<Packet>, f: Flow, i: nat)
    requires IsAlgo(algo, retaBits)
  {
    && i < |pkts| && f.pkt == pkts[i]
    && Queue(algo, retaBits, pkts[i]) == Some(f.q) && Queue(algo, retaBits, pkts[i].Reverse()) == Some(f.qr)
  }

  /** The flows are the template packets at increasing positions below n. */
  ghost predicate Picked(algo: RSSAlgo, retaBits: nat, pkts: seq<Packet>, flows: seq<Flow>, at: seq<nat>, n: nat)
    requires IsAlgo(algo, retaBits)
  {
    && |at| == |flows| && (forall k :: 0 <= k < |at| ==> at[k] < n && FlowAt(algo, retaBits, pkts, flows[k], at[k]))
    && (forall k, l :: 0 <= k < l < |at| ==> at[k] < at[l])
  }

  /** Nothing is left to gain from packet i: its queue is filled, or its reverse queue when that counts. */
  ghost predicate Served(algo: RSSAlgo, retaBits: nat, pkt: Packet, flows: seq<Flow>, reverse: bool)
    requires IsAlgo(algo, retaBits)
  {
    var q, qr := Queue(algo, retaBits, pkt), Queue(algo, retaBits, pkt.Reverse());
    && q.Some?
    && (q.value in Queues(flows) || (reverse && qr.Some? && qr.value in ReverseQueues(flows)))
  }

  function UpTo(n: nat): (s: set<nat>)
    ensures |s| == n && forall x: nat :: x in s <==> x < n
  {
    if n == 0 then {} else UpTo(n - 1) + {n - 1}
  }

  lemma SubsetOfSameSize<T>(a: set<T>, b: set<T>)
    requires a <= b && |a| == |b|
    ensures a == b
  {
    assert b == a + (b - a);
    assert |b| == |a| + |b - a|;
  }

  lemma QueuesAppend(flows: seq<Flow>, f: Flow)
    ensures Queues(flows + [f]) == Queues(flows) + {f.q}
    ensures ReverseQueues(flows + [f]) == ReverseQueues(flows) + {f.qr}
  {
    assert f in flows + [f];
    forall g | g in flows ensures g in flows + [f] {
    }
  }

  lemma DistinctAppend(flows: seq<Flow>, f: Flow)
    requires DistinctQueues(flows) && f.q !in Queues(flows)
    ensures DistinctQueues(flows + [f])
  {
    forall i | 0 <= i < |flows| ensures flows[i].q != f.q {
      assert flows[i] in flows;
    }
  }

  lemma DistinctReverseAppend(flows: seq<Flow>, f: Flow)
    requires DistinctReverse(flows) && f.qr !in ReverseQueues(flows)
    ensures DistinctReverse(flows + [f])
  {
    forall i | 0 <= i < |flows| ensures flows[i].qr != f.qr {
      assert flows[i] in flows;
    }
  }

  /** Each of the first n packets is served. */
  ghost predicate ServedBelow(algo: RSSAlgo, retaBits: nat, pkts: seq<Packet>, flows: seq<Flow>, reverse: bool, n: nat)
    requires IsAlgo(algo, retaBits) && n <= |pkts|
  {
    forall i :: 0 <= i < n ==> Served(algo, retaBits, pkts[i], flows, reverse)
  }

  lemma StillServed(algo: RSSAlgo, retaBits: nat, pkts: seq<Packet>, flows: seq<Flow>, f: Flow, reverse: bool, n: nat)
    requires IsAlgo(algo, retaBits) && n < |pkts| && FlowAt(algo, retaBits, pkts, f, n)
    requires ServedBelow(algo, retaBits, pkts, flows, reverse, n)
    ensures ServedBelow(algo, retaBits, pkts, flows + [f], reverse, n + 1)
  {
    QueuesAppend(flows, f);
    forall i | 0 <= i < n ensures Served(algo, retaBits, pkts[i], flows + [f], reverse) {
      assert Served(algo, retaBits, pkts[i], flows, reverse);
    }
  }

  /** No packet before a picked one goes to its queue. */
  ghost predicate FirstOnes(algo: RSSAlgo, retaBits: nat, pkts: seq<Packet>, flows: seq<Flow>, at: seq<nat>)
    requires IsAlgo(algo, retaBits) && |at| == |flows| && forall k :: 0 <= k < |at| ==> at[k] < |pkts|
  {
    forall k, i :: 0 <= k < |at| && 0 <= i < at[k] ==> Queue(algo, retaBits, pkts[i]) != Some(flows[k].q)
  }

  /** The flows chosen from the first n packets. With all flows wanted these are all of them. Otherwise
      their queues differ, and their reverse queues where these are checked; no packet could be added;
      and without the reverse check each queue hit is represented by the first packet that hits it. */
  ghost predicate Chosen(algo: RSSAlgo, retaBits: nat, pkts: seq<Packet>, flows: seq<Flow>, at: seq<nat>,
                         reverse: bool, all: bool, n: nat)
    requires IsAlgo(algo, retaBits) && n <= |pkts|
  {
    && Picked(algo, retaBits, pkts, flows, at, n)
    && (all ==> |flows| == n && forall k :: 0 <= k < |at| ==> at[k] == k)
    && (!all ==> DistinctQueues(flows) && ServedBelow(algo, retaBits, pkts, flows, reverse, n))
    && (!all && reverse ==> DistinctReverse(flows))
    && (!all && !reverse ==> FirstOnes(algo, retaBits, pkts, flows, at))
  }

  lemma ChosenSkip(algo: RSSAlgo, retaBits: nat, pkts: seq<Packet>, flows: seq<Flow>, at: seq<nat>, reverse: bool, n: nat)
    requires IsAlgo(algo, retaBits) && n < |pkts| && Chosen(algo, retaBits, pkts, flows, at, reverse, false, n)
    requires Served(algo, retaBits, pkts[n], flows, reverse)
    ensures Chosen(algo, retaBits, pkts, flows, at, reverse, false, n + 1)
  {
  }

  lemma PickedAdd(algo: RSSAlgo, retaBits: nat, pkts: seq<Packet>, flows: seq<Flow>, at: seq<nat>, n: nat, f: Flow)
    requires IsAlgo(algo, retaBits) && n < |pkts| && Picked(algo, retaBits, pkts, flows, at, n)
    requires FlowAt(algo, retaBits, pkts, f, n)
    ensures Picked(algo, retaBits, pkts, flows + [f], at + [n], n + 1)
  {
  }

  lemma FirstAdd(algo: RSSAlgo, retaBits: nat, pkts: seq<Packet>, flows: seq<Flow>, at: seq<nat>, n: nat, f: Flow)
    requires IsAlgo(algo, retaBits) && n < |pkts| && |at| == |flows| && forall k :: 0 <= k < |at| ==> at[k] < n
    requires FirstOnes(algo, retaBits, pkts, flows, at) && ServedBelow(algo, retaBits, pkts, flows, false, n)
    requires f.q !in Queues(flows)
    ensures FirstOnes(algo, retaBits, pkts, flows + [f], at + [n])
  {
    forall i | 0 <= i < n ensures Queue(algo, retaBits, pkts[i]) != Some(f.q) {
      assert Served(algo, retaBits, pkts[i], flows, false);
    }
  }

  lemma ChosenAdd(algo: RSSAlgo, retaBits: nat, pkts: seq<Packet>, flows: seq<Flow>, at: seq<nat>,
                  reverse: bool, all: bool, n: nat, f: Flow)
    requires IsAlgo(algo, retaBits) && n < |pkts| && Chosen(algo, retaBits, pkts, flows, at, reverse, all, n)
    requires FlowAt(algo, retaBits, pkts, f, n)
    requires !all ==> f.q !in Queues(flows) && (reverse ==> f.qr !in ReverseQueues(flows))
    ensures Chosen(algo, retaBits, pkts, flows + [f], at + [n], reverse, all, n + 1)
  {
    PickedAdd(algo, retaBits, pkts, flows, at, n, f);
    if !all {
      DistinctAppend(flows, f);
      StillServed(algo, retaBits, pkts, flows, f, reverse, n);
      if reverse {
        DistinctReverseAppend(flows, f);
      } else {
        FirstAdd(algo, retaBits, pkts, flows, at, n, f);
      }
    }
  }

  /** A hash that is needed to decide on the packet runs over the end of the key. */
  ghost predicate Fails(algo: RSSAlgo, retaBits: nat, pkt: Packet, flows: seq<Flow>, all: bool)
    requires IsAlgo(algo, retaBits)
  {
    var q := Queue(algo, retaBits, pkt);
    q.None? || ((all || q.value !in Queues(flows)) && Queue(algo, retaBits, pkt.Reverse()).None?)
  }

  datatype Choice = Take(flow: Flow) | Skip | Fail

  /** Whether one more packet is taken, given the queues of the flows so far. */
  method Consider(algo: RSSAlgo, retaBits: nat, pkt: Packet, ghost flows: seq<Flow>, queues: set<nat>,
                  queuesReverse: set<nat>, checkReverse: bool, allFlows: bool) returns (c: Choice)
    requires IsAlgo(algo, retaBits) && queues == Queues(flows)
    requires checkReverse ==> queuesReverse == ReverseQueues(flows)
    ensures c.Fail? <==> Fails(algo, retaBits, pkt, flows, allFlows)
    ensures c.Skip? ==> !allFlows && Served(algo, retaBits, pkt, flows, checkReverse)
    ensures c.Take? ==> FlowAt(algo, retaBits, [pkt], c.flow, 0)
    ensures c.Take? && !allFlows ==>
      c.flow.q !in Queues(flows) && (checkReverse ==> c.flow.qr !in ReverseQueues(flows))
  {
    var q := GetQueueIndex(algo, retaBits, pkt);
    if q.None? {
      return Fail;
    }
    if !allFlows && q.value in queues {
      return Skip;
    }
    var qr := GetQueueIndex(algo, retaBits, pkt.Reverse());
    if qr.None? {
      return Fail;
    }
    if checkReverse && !allFlows && qr.value in queuesReverse {
      return Skip;
    }
    c := Take(Flow(q.value, qr.value, pkt));
  }

  /** balanced_traffic: the choice from the packets it looked at, which are all of them unless a hash
      failed or, before that, all queues were filled. */
  method BalancedTraffic(algo: RSSAlgo, retaBits: nat, pkts: seq<Packet>, checkReverse: bool, allFlows: bool)
    returns (flows: seq<Flow>, stop: Stop, ghost at: seq<nat>, ghost n: nat)
    requires IsAlgo(algo, retaBits)
    ensures n <= |pkts| && Chosen(algo, retaBits, pkts, flows, at, checkReverse, allFlows, n)
    ensures stop.Exhausted? ==> n == |pkts|
    ensures stop.Filled? ==> !allFlows && Queues(flows) == UpTo(algo.queuesCount)
    ensures stop.KeyError? ==> n < |pkts| && Fails(algo, retaBits, pkts[n], flows, allFlows)
    ensures stop.Exhausted? && !allFlows ==> |Queues(flows)| < algo.queuesCount
  {
    flows, at := [], [];
    var queues: set<nat>, queuesReverse: set<nat> := {}, {};
    for i := 0 to |pkts|
      invariant Chosen(algo, retaBits, pkts, flows, at, checkReverse, allFlows, i)
      invariant queues == Queues(flows) && (checkReverse ==> queuesReverse == ReverseQueues(flows))
      invariant !allFlows ==> |queues| < algo.queuesCount
    {
      n := i;
      var c := Consider(algo, retaBits, pkts[i], flows, queues, queuesReverse, checkReverse, allFlows);
      if c.Fail? {
        return flows, KeyError, at, n;
      }
      if c.Skip? {
        ChosenSkip(algo, retaBits, pkts, flows, at, checkReverse, n);
        continue;
      }
      ChosenAdd(algo, retaBits, pkts, flows, at, checkReverse, allFlows, n, c.flow);
      QueuesAppend(flows, c.flow);
      if checkReverse {
        queuesReverse := queuesReverse + {c.flow.qr};
      }
      queues := queues + {c.flow.q};
      flows, at := flows + [c.flow], at + [n];
      if !allFlows && |queues| == algo.queuesCount {
        AllFilled(algo, retaBits, pkts, flows, at, n + 1);
        return flows, Filled, at, n + 1;
      }
    }
    stop, n := Exhausted, |pkts|;
  }

  /** With as many queues in use as there are, all are in use. */
  lemma AllFilled(algo: RSSAlgo, retaBits: nat, pkts: seq<Packet>, flows: seq<Flow>, at: seq<nat>, n: nat)
    requires IsAlgo(algo, retaBits) && Picked(algo, retaBits, pkts, flows, at, n)
    requires |Queues(flows)| == algo.queuesCount
    ensures Queues(flows) == UpTo(algo.queuesCount)
  {
    forall x | x in Queues(flows) ensures x < algo.queuesCount {
      var f :| f in flows && f.q == x;
      var k :| 0 <= k < |flows| && flows[k] == f;
      assert FlowAt(algo, retaBits, pkts, flows[k], at[k]);
    }
    SubsetOfSameSize(Queues(flows), UpTo(algo.queuesCount));
  }

  /** After the early stop, too, every packet that has a queue is served. */
  lemma FilledServes(algo: RSSAlgo, retaBits: nat, flows: seq<Flow>, pkt: Packet, reverse: bool)
    requires IsAlgo(algo, retaBits) && Queues(flows) == UpTo(algo.queuesCount) && Queue(algo, retaBits, pkt).Some?
    ensures Served(algo, retaBits, pkt, flows, reverse)
  {
    assert Queue(algo, retaBits, pkt).value in UpTo(algo.queuesCount);
  }

  /** The number of flows is the number of queues that the template can hit, if only those count. */
  lemma FlowsCountQueues(algo: RSSAlgo, retaBits: nat, pkts: seq<Packet>, flows: seq<Flow>, at: seq<nat>)
    requires IsAlgo(algo, retaBits) && Picked(algo, retaBits, pkts, flows, at, |pkts|)
    requires ServedBelow(algo, retaBits, pkts, flows, false, |pkts|) && DistinctQueues(flows)
    ensures |flows| == |set pkt | pkt in pkts && Queue(algo, retaBits, pkt).Some? :: Queue(algo, retaBits, pkt).value|
  {
    var hit := set pkt | pkt in pkts && Queue(algo, retaBits, pkt).Some? :: Queue(algo, retaBits, pkt).value;
    forall x | x in hit ensures x in Queues(flows) {
      var i :| 0 <= i < |pkts| && Queue(algo, retaBits, pkts[i]) == Some(x);
      assert Served(algo, retaBits, pkts[i], flows, false);
    }
    forall x | x in Queues(flows) ensures x in hit {
      var k :| 0 <= k < |flows| && flows[k].q == x;
      assert FlowAt(algo, retaBits, pkts, flows[k], at[k]) && pkts[at[k]] in pkts;
    }
    assert hit == Queues(flows);
    DistinctCount(flows);
  }

  lemma {:induction false} DistinctCount(flows: seq<Flow>)
    requires DistinctQueues(flows)
    ensures |Queues(flows)| == |flows|
  {
    if flows == [] {
      assert Queues(flows) == {};
    } else {
      var front, f := flows[..|flows| - 1], flows[|flows| - 1];
      DistinctCount(front);
      assert flows == front + [f];
      QueuesAppend(front, f);
      assert f.q !in Queues(front);
    }
  }
}
