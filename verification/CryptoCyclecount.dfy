/** The fill-and-drain loop of the PMD cycle count benchmark
    (app/test-crypto-perf/cperf_test_pmd_cyclecount.c). */
module CryptoCyclecount {
  import opened BurstDevice

  lemma Split(s: seq<Op>, i: nat, j: nat)
    requires i <= j <= |s|
    ensures multiset(s[..j]) == multiset(s[..i]) + multiset(s[i..j])
  {
    assert s[..j] == s[..i] + s[i..j];
  }

  lemma Grow(a: array<Op>, i: nat, j: nat)
    requires i <= j <= a.Length
    ensures multiset(a[..j]) == multiset(a[..i]) + multiset(a[i..j])
  {
    Cut(a, 0, i, j);
    assert a[0..j] == a[..j] && a[0..i] == a[..i];
  }

  lemma AddSlice(a: array<Op>, i: nat, j: nat, x: multiset<Op>, y: multiset<Op>, z: multiset<Op>)
    requires i <= j <= a.Length
    requires y == x + multiset(a[..i]) && z == y + multiset(a[i..j])
    ensures z == x + multiset(a[..j])
  {
    Grow(a, i, j);
  }

  class Bench {
    const ops: array<Op>
    const pool: Pool
    const dev: AnyOrderQueue
    var opsEnqd: nat
    var opsDeqd: nat

    constructor (ops: array<Op>, pool: Pool, dev: AnyOrderQueue)
      ensures this.ops == ops && this.pool == pool && this.dev == dev && opsEnqd == opsDeqd == 0
    {
      this.ops, this.pool, this.dev := ops, pool, dev;
      opsEnqd, opsDeqd := 0, 0;
    }

    /** One bulk get, behind the operations already built. */
    method GetBurst(cur: nat, size: nat) returns (ok: bool)
      requires cur + size <= ops.Length
      modifies ops, pool
      ensures ok == (size <= |old(pool.free)|)
      ensures ok ==> |pool.free| == |old(pool.free)| - size
      ensures ok ==> multiset(ops[..cur + size]) + multiset(pool.free) == multiset(old(ops[..cur])) + multiset(old(pool.free))
      ensures !ok ==> pool.free == old(pool.free)
    {
      ok := pool.GetBulk(ops, cur, size);
      Grow(ops, cur, cur + size);
    }

    /** Succeeds exactly when the pool has enough; a failed build keeps every whole burst it got. */
    method BuildOps(needed: nat, burst: nat) returns (ok: bool)
      requires needed <= ops.Length && burst > 0
      modifies ops, pool
      ensures ok == (needed <= |old(pool.free)|)
      ensures ok ==> multiset(ops[..needed]) + multiset(pool.free) == multiset(old(pool.free))
      ensures !ok ==> |pool.free| == |old(pool.free)| % burst
    {
      var cur := 0;
      while cur < needed
        invariant cur % burst == 0
        invariant |pool.free| == |old(pool.free)| - Min(cur, needed)
        invariant multiset(ops[..Min(cur, needed)]) + multiset(pool.free) == multiset(old(pool.free))
        decreases needed - cur
      {
        var size := Min(needed - cur, burst);
        var got := GetBurst(cur, size);
        if !got {
          Remainder(|old(pool.free)|, cur, burst);
          return false;
        }
        NextMultiple(cur, burst);
        cur := cur + burst;
      }
      return true;
    }

    /** Offers ops[0..needed) until all is taken or the device takes nothing at all of a burst. */
    method BenchEnq(needed: nat, burst: nat) returns (enqd: nat)
      requires needed <= ops.Length && burst > 0
      modifies dev, this`opsEnqd
      ensures enqd <= needed
      ensures multiset(dev.inFlight) == multiset(old(dev.inFlight)) + multiset(ops[..enqd])
      ensures opsEnqd == old(opsEnqd) + enqd
      ensures dev.polled == old(dev.polled) && dev.idle == old(dev.idle) + (if enqd < needed then 1 else 0)
      ensures |dev.accepted| == |old(dev.accepted)| + enqd
    {
      ghost var before := dev.inFlight;
      var cur := 0;
      while cur < needed
        invariant cur <= needed && dev.polled == old(dev.polled) && dev.idle == old(dev.idle)
        invariant multiset(dev.inFlight) == multiset(before) + multiset(ops[..cur])
        invariant opsEnqd == old(opsEnqd) + cur && |dev.accepted| == |old(dev.accepted)| + cur
      {
        ghost var inFlight := dev.inFlight;
        var n := dev.EnqueueBurst(ops, cur, Min(needed - cur, burst));
        if n == 0 {
          assert ops[cur..cur] == [];
          return cur;
        }
        AddSlice(ops, cur, cur + n, multiset(before), multiset(inFlight), multiset(dev.inFlight));
        opsEnqd := opsEnqd + n;
        cur := cur + n;
      }
      return needed;
    }

    /** One poll: what came back joins ops[0..at), over slots that are free again. */
    method Poll(at: nat, size: nat) returns (n: nat)
      requires at + size <= ops.Length && size > 0
      modifies dev`inFlight, dev`polled, dev`idle, ops, this`opsDeqd
      ensures n <= size && opsDeqd == old(opsDeqd) + n
      ensures multiset(ops[..at + n]) + multiset(dev.inFlight) == multiset(old(ops[..at])) + multiset(old(dev.inFlight))
      ensures ops[at + n..] == old(ops[at + n..])
      ensures dev.polled == old(dev.polled) + 1 && dev.idle == old(dev.idle) + (if n == 0 then 1 else 0)
    {
      ghost var before := ops[..at];
      n := dev.DequeueBurst(ops, at, size);
      Grow(ops, at, at + n);
      assert before == ops[..at];
      opsDeqd := opsDeqd + n;
    }

    /** Polls until `needed` operations came back, over the slots they left from; `polls` bounds the
        wait for the hardware. What came back so far fills ops[0..deqd). */
    method BenchDeq(needed: nat, burst: nat, polls: nat) returns (deqd: nat)
      requires needed <= ops.Length && burst > 0
      modifies dev, ops, this`opsDeqd
      ensures deqd <= needed
      ensures multiset(ops[..deqd]) + multiset(dev.inFlight) == multiset(old(dev.inFlight))
      ensures ops[deqd..] == old(ops[deqd..])
      ensures opsDeqd == old(opsDeqd) + deqd && dev.accepted == old(dev.accepted)
      ensures dev.idle >= old(dev.idle) && old(dev.polled) <= dev.polled <= old(dev.polled) + polls
      ensures deqd < needed ==> dev.polled == old(dev.polled) + polls
      ensures deqd < needed ==> polls <= deqd + (dev.idle - old(dev.idle))
    {
      deqd := 0;
      var left := polls;
      while deqd < needed && left > 0
        invariant deqd <= needed
        invariant multiset(ops[..deqd]) + multiset(dev.inFlight) == multiset(old(dev.inFlight))
        invariant ops[deqd..] == old(ops[deqd..])
        invariant opsDeqd == old(opsDeqd) + deqd && dev.accepted == old(dev.accepted)
        invariant dev.polled + left == old(dev.polled) + polls && dev.idle >= old(dev.idle)
        invariant polls - left <= deqd + (dev.idle - old(dev.idle))
        decreases left
      {
        ghost var tail := ops[deqd..];
        var n := Poll(deqd, Min(needed - deqd, burst));
        assert ops[deqd + n..] == tail[n..] == old(ops[deqd..])[n..];
        deqd := deqd + n;
        left := left - 1;
      }
    }

    /** Fills the ring from the slots and drains it back into them: they hold a permutation of what
        they held, and the device holds nothing. */
    method FillAndDrain(allocd: nat, burst: nat, polls: nat) returns (done: bool, enqd: nat)
      requires allocd <= ops.Length && burst > 0 && dev.inFlight == []
      modifies ops, dev, this
      ensures done ==> multiset(ops[..allocd]) == multiset(old(ops[..allocd])) && dev.inFlight == []
      ensures enqd <= allocd && opsEnqd == old(opsEnqd) + enqd && (done ==> opsDeqd == old(opsDeqd) + enqd)
      ensures |dev.accepted| == |old(dev.accepted)| + enqd
      ensures dev.idle >= old(dev.idle) && dev.polled >= old(dev.polled) && (enqd < allocd ==> dev.idle > old(dev.idle))
      ensures !done ==> dev.polled == old(dev.polled) + polls && polls < allocd + (dev.idle - old(dev.idle))
    {
      ghost var built := ops[..];
      enqd := BenchEnq(allocd, burst);
      assert built[..enqd] == ops[..enqd];
      var deqd := BenchDeq(enqd, burst, polls);
      done := deqd == enqd;
      if done {
        assert ops[..][..enqd] == ops[..enqd] && ops[..][enqd..] == ops[enqd..];
        Returned(built, ops[..], enqd, allocd, dev.inFlight);
        assert ops[..][..allocd] == ops[..allocd] && built[..allocd] == old(ops[..allocd]);
      }
    }

    /** One iteration: build, fill the ring, drain it, give everything back. Whatever the device
        accepts and however it reorders, the pool gets back exactly the operations it lent. */
    method Iterate(allocd: nat, burst: nat, polls: nat) returns (end: End, enqd: nat)
      requires allocd <= ops.Length && burst > 0 && dev.inFlight == []
      modifies ops, pool, dev, this
      ensures end == PoolExhausted <==> |old(pool.free)| < allocd
      ensures end == Done ==> multiset(pool.free) == multiset(old(pool.free)) && dev.inFlight == []
      ensures end == Done ==> enqd <= allocd && opsEnqd == old(opsEnqd) + enqd && opsDeqd == old(opsDeqd) + enqd
      ensures end == Done ==> |dev.accepted| == |old(dev.accepted)| + enqd
      ensures dev.idle >= old(dev.idle) && dev.polled >= old(dev.polled)
      ensures end == Done && enqd < allocd ==> dev.idle > old(dev.idle)
      ensures end == Waiting ==> dev.polled == old(dev.polled) + polls && polls < allocd + (dev.idle - old(dev.idle))
    {
      var ok := BuildOps(allocd, burst);
      if !ok {
        return PoolExhausted, 0;
      }
      var done;
      done, enqd := FillAndDrain(allocd, burst, polls);
      if !done {
        return Waiting, enqd;
      }
      assert ops[0..allocd] == ops[..allocd];
      pool.PutBulk(ops, 0, allocd);
      end := Done;
    }

    /** The main loop. The pool ends as it began, nothing stays behind in the device, and the run
        stops for lack of operations exactly when the pool cannot fill the first iteration.
        `rounds` and `polls` bound the waits for the hardware: they run out only if the device was idle
        in so many calls that they were not enough, or if a ring of no descriptors never moves on. */
    method BenchBurst(total: nat, descriptors: nat, burst: nat, rounds: nat, polls: nat) returns (end: End)
      requires descriptors <= ops.Length && burst > 0 && dev.inFlight == []
      modifies ops, pool, dev, this
      ensures end == Done ==> multiset(pool.free) == multiset(old(pool.free)) && dev.inFlight == []
      ensures end == Done ==> opsEnqd == opsDeqd == total && |dev.accepted| == |old(dev.accepted)| + total
      ensures end == PoolExhausted <==> rounds > 0 && |old(pool.free)| < Min(descriptors, total)
      ensures dev.idle >= old(dev.idle)
      ensures end == Waiting && descriptors > 0 ==>
        || (dev.polled >= old(dev.polled) + polls && polls < Min(descriptors, total) + (dev.idle - old(dev.idle)))
        || (opsEnqd == opsDeqd < total && rounds <= opsEnqd + (dev.idle - old(dev.idle)))
    {
      opsEnqd, opsDeqd := 0, 0;
      var cur := 0;
      var left := rounds;
      while cur < total && left > 0
        invariant cur <= total && opsEnqd == opsDeqd == cur && left <= rounds
        invariant |dev.accepted| == |old(dev.accepted)| + cur
        invariant dev.inFlight == [] && multiset(pool.free) == multiset(old(pool.free))
        invariant if left == rounds then cur == 0 else |old(pool.free)| >= Min(descriptors, total)
        invariant dev.idle >= old(dev.idle) && dev.polled >= old(dev.polled)
        invariant descriptors > 0 ==> rounds - left <= cur + (dev.idle - old(dev.idle))
        decreases left
      {
        SameSize(pool.free, old(pool.free));
        var enqd;
        end, enqd := Iterate(Min(descriptors, total - cur), burst, polls);
        if end != Done {
          return;
        }
        cur := cur + enqd;
        left := left - 1;
      }
      end := if cur >= total then Done else Waiting;
    }
  }

  lemma NextMultiple(a: nat, b: nat)
    requires b > 0 && a % b == 0
    ensures (a + b) % b == 0
  {
    assert a + b == (a / b + 1) * b;
    DivMod(a + b, a / b + 1, 0, b);
  }

  /** Whole bursts until the next one does not fit leave the remainder. */
  lemma Remainder(free: nat, taken: nat, b: nat)
    requires b > 0 && taken % b == 0 && taken <= free < taken + b
    ensures free - taken == free % b
  {
    assert free == (taken / b) * b + (free - taken);
    DivMod(free, taken / b, free - taken, b);
  }

  lemma DivMod(a: nat, q: nat, r: nat, b: nat)
    requires a == q * b + r && r < b
    ensures a % b == r
  {
    var d := a / b - q;
    assert a == (a / b) * b + a % b;
    assert d * b == r - a % b;
    Unit(d, b);
  }

  lemma Unit(d: int, b: nat)
    requires d * b < b && -(d * b) < b
    ensures d == 0
  {
  }

  lemma SameSize(a: seq<Op>, b: seq<Op>)
    requires multiset(a) == multiset(b)
    ensures |a| == |b|
  {
    assert |multiset(a)| == |a| && |multiset(b)| == |b|;
  }

  /** The drained slots hold a permutation of what was enqueued from them, and the rest never moved:
      the slots still hold exactly what was allocated, and the device holds nothing. */
  lemma Returned(before: seq<Op>, after: seq<Op>, enqd: nat, allocd: nat, inFlight: seq<Op>)
    requires enqd <= allocd <= |before| == |after|
    requires multiset(after[..enqd]) + multiset(inFlight) == multiset(before[..enqd])
    requires after[enqd..] == before[enqd..]
    ensures multiset(after[..allocd]) == multiset(before[..allocd]) && inFlight == []
  {
    assert |multiset(after[..enqd])| == enqd && |multiset(before[..enqd])| == enqd;
    assert |multiset(inFlight)| == |inFlight|;
    Split(before, enqd, allocd);
    Split(after, enqd, allocd);
    assert after[enqd..allocd] == after[enqd..][..allocd - enqd] == before[enqd..allocd];
  }
}
