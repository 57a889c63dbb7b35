/** The sample rings of the sense application and their windowed average (app/sense/stats.c). */
module SenseSamples {

  const SENSE_MAX_NODES: nat := 16
  const SENSE_MAX_SAMPLES: nat := 2048

  datatype Sample = Sample(tsc: nat, rtt: real)

  predicate PeerInvalid(peer: nat) {
    peer == 0 || peer > SENSE_MAX_NODES
  }

  // ---------- what the average means ----------

  /** A sample counts if it carries a time and is no older than the window. */
  predicate Recent(s: Sample, now: nat, window: nat) {
    s.tsc != 0 && now - s.tsc <= window
  }

  /** The samples of `h` that count, in order. */
  function Counted(h: seq<Sample>, now: nat, window: nat): seq<Sample> {
    if h == [] then []
    else
      var last := h[|h| - 1];
      Counted(h[..|h| - 1], now, window) + (if Recent(last, now, window) then [last] else [])
  }

  /** The samples a ring still holds. */
  function Newest(h: seq<Sample>): seq<Sample> {
    if |h| <= SENSE_MAX_SAMPLES then h else h[|h| - SENSE_MAX_SAMPLES..]
  }

  /** These are the last ones, up to the size of the ring. */
  lemma NewestAreLast(h: seq<Sample>)
    ensures |Newest(h)| == (if |h| < SENSE_MAX_SAMPLES then |h| else SENSE_MAX_SAMPLES)
    ensures Newest(h) == h[|h| - |Newest(h)|..]
  {
  }

  function Sum(s: seq<Sample>): real {
    if s == [] then 0.0 else s[0].rtt + Sum(s[1..])
  }

  /** The mean, or -1 where there is none. */
  function Mean(s: seq<Sample>): real {
    if s == [] then -1.0 else Sum(s) / |s| as real
  }

  predicate Ordered(h: seq<Sample>, clock: nat) {
    && (forall i, j :: 0 <= i <= j < |h| ==> h[i].tsc <= h[j].tsc)
    && (forall i :: 0 <= i < |h| ==> h[i].tsc <= clock)
  }

  lemma {:induction false} CountedNone(h: seq<Sample>, now: nat, window: nat)
    requires forall i :: 0 <= i < |h| ==> !Recent(h[i], now, window)
    ensures Counted(h, now, window) == []
  {
    if h != [] {
      CountedNone(h[..|h| - 1], now, window);
    }
  }

  /** Exactly the samples with a time and an age up to the window are counted, each as often as it
      occurs. */
  lemma {:induction false} CountedExactly(h: seq<Sample>, now: nat, window: nat, s: Sample)
    ensures multiset(Counted(h, now, window))[s] == if 0 < s.tsc && now <= s.tsc + window then multiset(h)[s] else 0
  {
    if h != [] {
      var front, last := h[..|h| - 1], h[|h| - 1];
      CountedExactly(front, now, window, s);
      assert h == front + [last];
    }
  }

  /** The sum is taken sample by sample, wherever a sequence is cut. */
  lemma {:induction false} SumConcat(a: seq<Sample>, b: seq<Sample>)
    ensures Sum(a + b) == Sum(a) + Sum(b)
  {
    if a == [] {
      assert a + b == b;
    } else {
      SumConcat(a[1..], b);
      assert (a + b)[1..] == a[1..] + b;
    }
  }

  /** One more sample moves the mean of n samples by an n + 1-st of its distance from it. */
  lemma MeanMoves(s: seq<Sample>, x: Sample)
    ensures Mean([x]) == x.rtt && Mean([]) == -1.0
    ensures s != [] ==> (|s| + 1) as real * (Mean(s + [x]) - Mean(s)) == x.rtt - Mean(s)
  {
    assert [x][1..] == [] && Sum([x]) == x.rtt;
    SumConcat(s, [x]);
    if s != [] {
      var n := |s| as real;
      Quotients(Sum(s), n, x.rtt, Mean(s), Mean(s + [x]));
    }
  }

  lemma Quotients(sum: real, n: real, x: real, m: real, m': real)
    requires n > 0.0 && m == sum / n && m' == (sum + x) / (n + 1.0)
    ensures (n + 1.0) * (m' - m) == x - m
  {
    assert n * m == sum && (n + 1.0) * m' == sum + x;
  }

  /** In a history that splits into old and recent samples, the recent ones are counted. */
  lemma {:induction false} CountedSuffix(h: seq<Sample>, k: nat, now: nat, window: nat)
    requires k <= |h| && (forall i :: 0 <= i < k ==> !Recent(h[i], now, window))
    requires forall i :: k <= i < |h| ==> Recent(h[i], now, window)
    ensures Counted(h, now, window) == h[k..]
  {
    if k == |h| {
      CountedNone(h, now, window);
    } else {
      var front := h[..|h| - 1];
      CountedSuffix(front, k, now, window);
      assert h[k..] == front[k..] + [h[|h| - 1]];
    }
  }

  /** The samples from position k on all count. */
  predicate RecentFrom(h: seq<Sample>, k: int, now: nat, window: nat) {
    forall j :: 0 <= j < |h| && k <= j ==> Recent(h[j], now, window)
  }

  /** The sum of the samples from position k on. */
  function SumFrom(h: seq<Sample>, k: nat): real
    requires k <= |h|
    decreases |h| - k
  {
    if k == |h| then 0.0 else h[k].rtt + SumFrom(h, k + 1)
  }

  lemma {:induction false} SumFromSlice(h: seq<Sample>, k: nat)
    requires k <= |h|
    ensures SumFrom(h, k) == Sum(h[k..])
    decreases |h| - k
  {
    if k < |h| {
      SumFromSlice(h, k + 1);
      assert h[k..][1..] == h[k + 1..];
    }
  }

  /** The early exit of the walk loses nothing: if the newest i samples count and the one before
      them does not, or is not in the ring any more, then these i are all that count. */
  lemma WalkIsExact(all: seq<Sample>, clock: nat, i: nat, now: nat, window: nat)
    requires Ordered(all, clock) && clock <= now && i <= |Newest(all)| && RecentFrom(all, |all| - i, now, window)
    requires i < |Newest(all)| ==> !Recent(all[|all| - 1 - i], now, window)
    ensures var counted := Counted(Newest(all), now, window);
      |counted| == i && Sum(counted) == SumFrom(all, |all| - i)
  {
    var counted, k := Counted(Newest(all), now, window), |all| - i;
    assert counted == all[k..] by {
      var lo := |all| - |Newest(all)|;
      assert Newest(all) == all[lo..];
      if lo < k {
        OlderToo(all, clock, k - 1, now, window);
      }
      CountedEnd(all, lo, k, now, window);
    }
    assert Sum(counted) == SumFrom(all, k) by {
      SumFromSlice(all, k);
    }
  }

  /** Samples before one that does not count do not count either. */
  lemma OlderToo(all: seq<Sample>, clock: nat, k: nat, now: nat, window: nat)
    requires Ordered(all, clock) && clock <= now && k < |all| && !Recent(all[k], now, window)
    ensures forall j :: 0 <= j <= k ==> !Recent(all[j], now, window)
  {
    forall j | 0 <= j <= k ensures all[j].tsc <= all[k].tsc <= clock {
    }
  }

  lemma CountedEnd(all: seq<Sample>, lo: nat, k: nat, now: nat, window: nat)
    requires lo <= k <= |all| && RecentFrom(all, k, now, window)
    requires forall j :: lo <= j < k ==> !Recent(all[j], now, window)
    ensures Counted(all[lo..], now, window) == all[k..]
  {
    CountedSuffix(all[lo..], k - lo, now, window);
    assert all[lo..][k - lo..] == all[k..];
  }

  // ---------- rings ----------

  /** The slot of the k-th sample of a history. */
  function Slot(k: nat): (r: nat)
    ensures r < SENSE_MAX_SAMPLES
  {
    if k < SENSE_MAX_SAMPLES then k else Slot(k - SENSE_MAX_SAMPLES)
  }

  /** One step forward on the ring, as the append takes it, and back, as the walk does. */
  lemma {:induction false} SlotStep(k: nat)
    ensures Slot(k + 1) == (Slot(k) + 1) % SENSE_MAX_SAMPLES
    ensures Slot(k) == if Slot(k + 1) == 0 then SENSE_MAX_SAMPLES - 1 else Slot(k + 1) - 1
  {
    if k >= SENSE_MAX_SAMPLES {
      SlotStep(k - SENSE_MAX_SAMPLES);
    }
  }

  /** Two positions less than one turn apart lie in different slots. */
  lemma {:induction false} Apart(i: nat, j: nat)
    requires i < j < i + SENSE_MAX_SAMPLES
    ensures Slot(i) != Slot(j)
  {
    if i >= SENSE_MAX_SAMPLES {
      Apart(i - SENSE_MAX_SAMPLES, j - SENSE_MAX_SAMPLES);
    }
  }

  /** The slots hold the samples of a history from position `from` on. */
  predicate Stored(row: seq<Sample>, h: seq<Sample>, from: nat)
    requires |row| == SENSE_MAX_SAMPLES
  {
    forall k: nat {:trigger h[k]} :: from <= k < |h| ==> row[Slot(k)] == h[k]
  }

  lemma StoredNext(row: seq<Sample>, h: seq<Sample>, from: nat, s: Sample)
    requires |row| == SENSE_MAX_SAMPLES && Stored(row, h, from) && |h| < from + SENSE_MAX_SAMPLES
    ensures Stored(row[Slot(|h|) := s], h + [s], from)
  {
    forall k: nat | from <= k < |h| ensures row[Slot(|h|) := s][Slot(k)] == (h + [s])[k] {
      Apart(k, |h|);
    }
  }

  lemma OrderedNext(h: seq<Sample>, clock: nat, s: Sample)
    requires Ordered(h, clock) && clock <= s.tsc
    ensures Ordered(h + [s], s.tsc)
  {
  }

  /** A ring of samples holds the newest ones of a history, whose times do not decrease. */
  ghost predicate Holds(row: seq<Sample>, head: nat, count: nat, h: seq<Sample>, clock: nat) {
    && |row| == SENSE_MAX_SAMPLES && count == |Newest(h)| && head == Slot(|h|)
    && Ordered(h, clock) && Stored(row, h, |h| - count)
  }

  lemma HoldsLater(row: seq<Sample>, head: nat, count: nat, h: seq<Sample>, clock: nat, later: nat)
    requires Holds(row, head, count, h, clock) && clock <= later
    ensures Holds(row, head, count, h, later)
  {
  }

  lemma HoldsNext(row: seq<Sample>, head: nat, count: nat, h: seq<Sample>, clock: nat, s: Sample)
    requires Holds(row, head, count, h, clock) && clock <= s.tsc
    ensures Holds(row[head := s], (head + 1) % SENSE_MAX_SAMPLES,
                  if count < SENSE_MAX_SAMPLES then count + 1 else count, h + [s], s.tsc)
  {
    SlotStep(|h|);
    OrderedNext(h, clock, s);
    StoredNext(row, h, if count < SENSE_MAX_SAMPLES then |h| - count else |h| + 1 - count, s);
  }

  /** The slot before slot idx. */
  function Before(idx: nat): nat { if idx == 0 then SENSE_MAX_SAMPLES - 1 else idx - 1 }

  /** After i steps of the walk: the newest i samples counted, and idx is at the one before them. */
  predicate Walked(all: seq<Sample>, now: nat, window: nat, idx: nat, i: nat, sum: real) {
    && i <= |all| && (i < |all| ==> idx == Slot(|all| - 1 - i))
    && RecentFrom(all, |all| - i, now, window) && sum == SumFrom(all, |all| - i)
  }

  /** The walk begins at the newest sample. */
  lemma WalkStart(row: seq<Sample>, head: nat, count: nat, all: seq<Sample>, clock: nat, now: nat, window: nat)
    requires Holds(row, head, count, all, clock) && count > 0
    ensures Walked(all, now, window, Before(head), 0, 0.0)
  {
    SlotStep(|all| - 1);
  }

  /** One step: the walk reads the samples newest first, and goes on at one that counts. */
  lemma WalkStep(row: seq<Sample>, head: nat, count: nat, all: seq<Sample>, clock: nat, now: nat, window: nat,
                 idx: nat, i: nat, sum: real)
    requires Holds(row, head, count, all, clock) && i < count && Walked(all, now, window, idx, i, sum)
    ensures idx < |row| && row[idx] == all[|all| - 1 - i]
    ensures Recent(row[idx], now, window) ==> Walked(all, now, window, Before(idx), i + 1, sum + row[idx].rtt)
  {
    assert row[idx] == all[|all| - 1 - i];
    WalkOn(all, now, window, idx, i, sum);
  }

  lemma WalkOn(all: seq<Sample>, now: nat, window: nat, idx: nat, i: nat, sum: real)
    requires Walked(all, now, window, idx, i, sum) && i < |all|
    ensures Recent(all[|all| - 1 - i], now, window) ==>
      Walked(all, now, window, Before(idx), i + 1, sum + all[|all| - 1 - i].rtt)
  {
    if i + 1 < |all| {
      SlotStep(|all| - 2 - i);
    }
  }

  class Rings {
    const ring: array2<Sample>
    const head: array<nat>
    const count: array<nat>
    /** For each peer, every sample ever appended, and the last clock reading. */
    ghost var history: seq<seq<Sample>>
    ghost var clock: nat

    ghost predicate Shape()
      reads this
    {
      && ring.Length0 == head.Length == count.Length == |history| == SENSE_MAX_NODES + 1
      && ring.Length1 == SENSE_MAX_SAMPLES && head != count
    }

    /** The ring of one peer. */
    ghost function Row(peer: nat): seq<Sample>
      requires peer < ring.Length0 && ring.Length1 == SENSE_MAX_SAMPLES
      reads ring
    {
      seq(SENSE_MAX_SAMPLES, k requires 0 <= k < SENSE_MAX_SAMPLES reads ring => ring[peer, k])
    }

    ghost predicate Valid()
      reads this, ring, head, count
    {
      && Shape()
      && forall peer :: 0 <= peer <= SENSE_MAX_NODES ==>
           Holds(Row(peer), head[peer], count[peer], history[peer], clock)
    }

    constructor ()
      ensures Valid() && clock == 0
      ensures forall peer :: 0 <= peer <= SENSE_MAX_NODES ==> history[peer] == []
      ensures fresh(ring) && fresh(head) && fresh(count)
    {
      ring := new Sample[SENSE_MAX_NODES + 1, SENSE_MAX_SAMPLES]((_, _) => Sample(0, 0.0));
      head := new nat[SENSE_MAX_NODES + 1](_ => 0);
      count := new nat[SENSE_MAX_NODES + 1](_ => 0);
      history := seq(SENSE_MAX_NODES + 1, _ => []);
      clock := 0;
    }

    /** Writes one slot of one ring. */
    method Store(peer: nat, at: nat, s: Sample)
      requires Shape() && peer <= SENSE_MAX_NODES && at < SENSE_MAX_SAMPLES
      modifies ring
      ensures Row(peer) == old(Row(peer))[at := s]
      ensures forall p :: 0 <= p <= SENSE_MAX_NODES && p != peer ==> Row(p) == old(Row(p))
    {
      ring[peer, at] := s;
      assert Row(peer) == old(Row(peer))[at := s];
      forall p | 0 <= p <= SENSE_MAX_NODES && p != peer ensures Row(p) == old(Row(p)) {
        assert forall k :: 0 <= k < SENSE_MAX_SAMPLES ==> Row(p)[k] == old(Row(p))[k];
      }
    }

    /** Appends a sample to the history of a valid peer, and to no other. */
    method Append(peer: nat, rtt: real, now: nat)
      requires Valid() && clock <= now
      modifies this, ring, head, count
      ensures Valid() && clock == now
      ensures history ==
        if PeerInvalid(peer) then old(history) else old(history)[peer := old(history)[peer] + [Sample(now, rtt)]]
    {
      ghost var heads, counts := head[..], count[..];
      clock := now;
      if !PeerInvalid(peer) {
        var at := head[peer];
        HoldsNext(Row(peer), at, count[peer], history[peer], old(clock), Sample(now, rtt));
        Store(peer, at, Sample(now, rtt));
        head[peer] := (at + 1) % SENSE_MAX_SAMPLES;
        if count[peer] < SENSE_MAX_SAMPLES {
          count[peer] := count[peer] + 1;
        }
        history := history[peer := history[peer] + [Sample(now, rtt)]];
        assert Holds(Row(peer), head[peer], count[peer], history[peer], clock);
      }
      forall p | 0 <= p <= SENSE_MAX_NODES && (PeerInvalid(peer) || p != peer)
        ensures Holds(Row(p), head[p], count[p], history[p], clock)
      {
        assert Row(p) == old(Row(p)) && head[p] == heads[p] && count[p] == counts[p];
        HoldsLater(Row(p), head[p], count[p], history[p], old(clock), clock);
      }
    }

    /** The backward walk with its early exit adds up exactly the samples that count among those
        still in the ring. */
    method WalkBack(peer: nat, window: nat, now: nat) returns (sum: real, cnt: nat)
      requires Shape() && clock <= now && peer <= SENSE_MAX_NODES && count[peer] > 0
      requires Holds(Row(peer), head[peer], count[peer], history[peer], clock)
      ensures var counted := Counted(Newest(history[peer]), now, window);
        sum == Sum(counted) && cnt == |counted|
    {
      ghost var row, all := Row(peer), history[peer];
      WalkStart(row, head[peer], count[peer], all, clock, now, window);
      sum, cnt := 0.0, 0;
      var idx := Before(head[peer]);
      var i: nat := 0;
      while i < count[peer]
        invariant cnt == i <= count[peer] && Walked(all, now, window, idx, i, sum)
      {
        WalkStep(row, head[peer], count[peer], all, clock, now, window, idx, i, sum);
        var s := ring[peer, idx];
        assert s == row[idx];
        if s.tsc == 0 || now - s.tsc > window {
          break;
        }
        sum := sum + s.rtt;
        cnt := cnt + 1;
        idx := Before(idx);
        i := i + 1;
      }
      WalkIsExact(all, clock, i, now, window);
    }

    /** The mean of the samples that count, and -1 if there are none. */
    method AvgInWindow(peer: nat, windowMs: nat, hz: nat, now: nat) returns (avg: real)
      requires Valid() && clock <= now && peer <= SENSE_MAX_NODES
      ensures avg == Mean(Counted(Newest(history[peer]), now, windowMs * hz / 1000))
    {
      if count[peer] == 0 {
        assert Newest(history[peer]) == [];
        return -1.0;
      }
      var window := windowMs * hz / 1000;
      var sum, cnt := WalkBack(peer, window, now);
      avg := if cnt == 0 then -1.0 else sum / cnt as real;
    }

    /** sense_get_rtt_avg: -1 for an invalid peer. */
    method GetRttAvg(peer: nat, windowMs: nat, hz: nat, now: nat) returns (avg: real)
      requires Valid() && clock <= now
      ensures avg == if PeerInvalid(peer) then -1.0
                     else Mean(Counted(Newest(history[peer]), now, windowMs * hz / 1000))
    {
      if peer == 0 || peer > SENSE_MAX_NODES {
        return -1.0;
      }
      avg := AvgInWindow(peer, windowMs, hz, now);
    }
  }
}
