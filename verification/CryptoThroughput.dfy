/** The slot discipline of the crypto throughput benchmark
    (app/test-crypto-perf/cperf_test_throughput.c): new operations go to the front of the array and
    the unsent ones are moved to its tail, so that one array serves every burst. */
module CryptoThroughput {
  import opened BurstDevice

  /** Nothing is lost or duplicated between the pool, the device and the slots, and what was lent
      over time is what was accepted over time and what still waits in the slots. */
  ghost predicate Books(free: seq<Op>, inFlight: seq<Op>, unsent: seq<Op>, lent: multiset<Op>, accepted: seq<Op>,
                        enqd: nat, deqd: nat, all: multiset<Op>) {
    && multiset(free) + multiset(inFlight) + multiset(unsent) == all
    && lent == multiset(accepted) + multiset(unsent)
    && |accepted| == enqd == deqd + |inFlight|
  }

  /** New operations in front of the unsent ones. */
  lemma BooksRefilled(free: seq<Op>, inFlight: seq<Op>, unsent: seq<Op>, lent: multiset<Op>, accepted: seq<Op>,
                      enqd: nat, deqd: nat, all: multiset<Op>, free': seq<Op>, new': seq<Op>, lent': multiset<Op>)
    requires Books(free, inFlight, unsent, lent, accepted, enqd, deqd, all)
    requires multiset(new') + multiset(free') == multiset(free) && lent' == lent + multiset(new')
    ensures Books(free', inFlight, new' + unsent, lent', accepted, enqd, deqd, all)
  {
  }

  /** The device took `sent`, the first part of the slots, and left `rest`. */
  lemma BooksOffered(free: seq<Op>, inFlight: seq<Op>, unsent: seq<Op>, lent: multiset<Op>, accepted: seq<Op>,
                     enqd: nat, deqd: nat, all: multiset<Op>, inFlight': seq<Op>, sent: seq<Op>, rest: seq<Op>)
    requires Books(free, inFlight, unsent, lent, accepted, enqd, deqd, all)
    requires unsent == sent + rest && multiset(inFlight') == multiset(inFlight) + multiset(sent)
    ensures Books(free, inFlight', rest, lent, accepted + sent, enqd + |sent|, deqd, all)
  {
    Grown(inFlight', inFlight, sent);
  }

  /** The device gave back `got`, which returned to the pool. */
  lemma BooksCollected(free: seq<Op>, inFlight: seq<Op>, unsent: seq<Op>, lent: multiset<Op>, accepted: seq<Op>,
                       enqd: nat, deqd: nat, all: multiset<Op>, inFlight': seq<Op>, got: seq<Op>)
    requires Books(free, inFlight, unsent, lent, accepted, enqd, deqd, all)
    requires multiset(got) + multiset(inFlight') == multiset(inFlight)
    ensures Books(free + got, inFlight', unsent, lent, accepted, enqd, deqd + |got|, all)
  {
    Grown(inFlight, inFlight', got);
  }

  lemma Sizes(s: seq<Op>)
    ensures |multiset(s)| == |s|
  {
  }

  class Bench {
    const ops: array<Op>
    const processed: array<Op>
    const pool: Pool
    const dev: AnyOrderQueue
    var enqd: nat
    var unused: nat
    var enqdTotal: nat
    var deqdTotal: nat

    constructor (ops: array<Op>, processed: array<Op>, pool: Pool, dev: AnyOrderQueue)
      ensures this.ops == ops && this.processed == processed && this.pool == pool && this.dev == dev
    {
      this.ops, this.processed, this.pool, this.dev := ops, processed, pool, dev;
      enqd, unused, enqdTotal, deqdTotal := 0, 0, 0, 0;
    }

    /** The operations built but not yet accepted by the device. */
    function Unsent(): seq<Op>
      requires enqd + unused <= ops.Length
      reads this, ops
    {
      ops[enqd..enqd + unused]
    }

    /** Slots are in range; the next burst needs no more new operations than the last one sent. */
    predicate Slots(total: nat, burst: nat)
      reads this
    {
      && ops != processed && 0 < burst <= ops.Length && burst <= processed.Length
      && enqdTotal + unused <= total && unused <= burst && enqd + unused <= ops.Length
      && (unused > 0 ==> Min(burst, total - enqdTotal) <= enqd + unused)
    }

    ghost predicate Balanced(all: multiset<Op>)
      requires enqd + unused <= ops.Length
      reads this, ops, pool, dev
    {
      Books(pool.free, dev.inFlight, Unsent(), pool.lent, dev.accepted, enqdTotal, deqdTotal, all)
    }

    /** The memmove of the unsent operations to just behind the `needed` new ones. */
    method MoveUnsent(needed: nat)
      requires enqd + unused <= ops.Length && (unused > 0 ==> needed <= enqd) && needed + unused <= ops.Length
      modifies ops, this`enqd
      ensures enqd == needed && Unsent() == old(Unsent())
      ensures ops[..needed] == old(ops[..needed])
    {
      ghost var front, unsent := ops[..needed], Unsent();
      if enqd > needed {
        forall i | 0 <= i < unused {
          ops[needed + i] := ops[enqd + i];
        }
      }
      enqd := needed;
      assert ops[..needed] == front && Unsent() == unsent;
    }

    /** The bulk get: new operations in front of where the unsent ones lie. */
    method GetNew(needed: nat) returns (ok: bool)
      requires enqd + unused <= ops.Length && needed <= ops.Length && (unused > 0 ==> needed <= enqd)
      modifies ops, pool
      ensures ok == (needed <= |old(pool.free)|) && Unsent() == old(Unsent())
      ensures ok ==> multiset(ops[..needed]) + multiset(pool.free) == multiset(old(pool.free))
      ensures ok ==> pool.lent == old(pool.lent) + multiset(ops[..needed])
      ensures !ok ==> pool.free == old(pool.free) && pool.lent == old(pool.lent)
    {
      ghost var unsent, before := Unsent(), ops[..];
      ok := pool.GetBulk(ops, 0, needed);
      assert ops[0..needed] == ops[..needed];
      if unused > 0 {
        TailSlice(before, ops[..], needed, enqd, enqd + unused);
      }
      assert Unsent() == unsent;
    }

    /** New operations fill ops[0..size - unused) and the unsent ones follow them, in order: neither
        the bulk get nor the move overwrites a live operation. A failed get changes nothing. */
    method Refill(size: nat) returns (ok: bool)
      requires enqd + unused <= ops.Length && unused <= size <= ops.Length
      requires unused > 0 ==> size <= enqd + unused
      modifies ops, pool, this`enqd
      ensures ok == (size - unused <= |old(pool.free)|)
      ensures enqd == if ok then size - unused else old(enqd)
      ensures Unsent() == old(Unsent())
      ensures ok ==> multiset(ops[..enqd]) + multiset(pool.free) == multiset(old(pool.free))
      ensures ok ==> pool.lent == old(pool.lent) + multiset(ops[..enqd])
      ensures !ok ==> pool.free == old(pool.free) && pool.lent == old(pool.lent)
    {
      ok := GetNew(size - unused);
      if ok {
        MoveUnsent(size - unused);
      }
    }

    /** The enqueue: what the device did not take is unsent. */
    method Push(size: nat)
      requires size <= ops.Length
      modifies dev, this`enqd, this`unused, this`enqdTotal
      ensures enqd + unused == size && enqdTotal == old(enqdTotal) + enqd && Unsent() == ops[enqd..size]
      ensures multiset(dev.inFlight) == multiset(old(dev.inFlight)) + multiset(ops[0..enqd])
      ensures dev.accepted == old(dev.accepted) + ops[0..enqd]
      ensures dev.polled == old(dev.polled) && dev.idle == old(dev.idle) + (if enqd == 0 < size then 1 else 0)
    {
      var n := dev.EnqueueBurst(ops, 0, size);
      enqd, unused, enqdTotal := n, size - n, enqdTotal + n;
      assert ops[0..0 + n] == ops[0..n];
    }

    /** Offer ops[0..size) to the device and note what it left over. */
    method Offer(size: nat, ghost all: multiset<Op>)
      requires size <= ops.Length
      requires Books(pool.free, dev.inFlight, ops[0..size], pool.lent, dev.accepted, enqdTotal, deqdTotal, all)
      modifies dev, this`enqd, this`unused, this`enqdTotal
      ensures enqd + unused == size && enqdTotal == old(enqdTotal) + enqd
      ensures dev.polled == old(dev.polled) && dev.idle == old(dev.idle) + (if enqd == 0 < size then 1 else 0)
      ensures Balanced(all)
    {
      ghost var inFlight, accepted, slots, before := dev.inFlight, dev.accepted, ops[0..size], enqdTotal;
      Push(size);
      ghost var sent, rest := ops[0..enqd], ops[enqd..size];
      assert slots == sent + rest;
      BooksOffered(pool.free, inFlight, slots, pool.lent, accepted, before, deqdTotal, all, dev.inFlight, sent, rest);
    }

    /** Refill, then offer everything. */
    method Send(total: nat, burst: nat, ghost all: multiset<Op>) returns (ok: bool)
      requires Slots(total, burst) && Balanced(all) && enqdTotal < total
      modifies ops, pool, dev, this`enqd, this`unused, this`enqdTotal
      ensures ok == (Min(burst, total - old(enqdTotal)) - old(unused) <= |old(pool.free)|)
      ensures ok ==> Slots(total, burst) && Balanced(all)
      ensures ok ==> enqdTotal + unused == old(enqdTotal) + Min(burst, total - old(enqdTotal))
      ensures ok ==> enqdTotal >= old(enqdTotal) && enqdTotal + dev.idle > old(enqdTotal) + old(dev.idle)
      ensures dev.idle >= old(dev.idle) && dev.polled == old(dev.polled)
      ensures !ok ==> unused == old(unused) && enqdTotal == old(enqdTotal) && pool.free == old(pool.free)
      ensures !ok ==> Slots(total, burst) && Balanced(all)
    {
      var size := Min(burst, total - enqdTotal);
      ok := Build(size, all);
      if ok {
        Offer(size, all);
      }
    }

    /** The first `size` slots are ready to be offered. */
    method Build(size: nat, ghost all: multiset<Op>) returns (ok: bool)
      requires enqd + unused <= ops.Length && unused <= size <= ops.Length
      requires unused > 0 ==> size <= enqd + unused
      requires Balanced(all)
      modifies ops, pool, this`enqd
      ensures ok == (size - unused <= |old(pool.free)|)
      ensures ok ==> Books(pool.free, dev.inFlight, ops[0..size], pool.lent, dev.accepted, enqdTotal, deqdTotal, all)
      ensures !ok ==> pool.free == old(pool.free) && enqd == old(enqd) && Balanced(all)
    {
      ghost var free, lent, unsent := pool.free, pool.lent, Unsent();
      ok := Refill(size);
      if ok {
        ghost var front := ops[..enqd];
        BooksRefilled(free, dev.inFlight, unsent, lent, dev.accepted, enqdTotal, deqdTotal, all,
                      pool.free, front, pool.lent);
        assert ops[0..size] == front + Unsent();
      }
    }

    /** Take back finished operations and return them to the pool. */
    method Collect(burst: nat, ghost all: multiset<Op>)
      requires enqd + unused <= ops.Length && burst <= processed.Length && ops != processed && Balanced(all)
      requires burst > 0
      modifies processed, pool`free, dev`inFlight, dev`polled, dev`idle, this`deqdTotal
      ensures Balanced(all) && deqdTotal >= old(deqdTotal)
      ensures dev.polled == old(dev.polled) + 1 && dev.idle >= old(dev.idle)
      ensures deqdTotal + dev.idle > old(deqdTotal) + old(dev.idle)
    {
      ghost var free, inFlight, unsent := pool.free, dev.inFlight, Unsent();
      var n := dev.DequeueBurst(processed, 0, burst);
      ghost var got := processed[0..n];
      BooksCollected(free, inFlight, unsent, pool.lent, dev.accepted, enqdTotal, deqdTotal, all, dev.inFlight, got);
      pool.PutBulk(processed, 0, n);
      deqdTotal := deqdTotal + n;
      assert Unsent() == unsent && pool.free == free + got;
    }

    /** One burst size. At the end every operation lent was accepted exactly as often as it was lent,
        none is left in the slots or the device, and the pool is whole again. The run stops for lack of
        operations only when the next request exceeds what the pool holds, so that the device and the
        request together exceed the whole pool; nothing is lost then either. `bursts` and `polls` bound
        the waits for the hardware: they run out only on a device that was idle too often. */
    method Run(total: nat, burst: nat, bursts: nat, polls: nat) returns (end: End)
      requires ops != processed && 0 < burst <= ops.Length && burst <= processed.Length
      requires dev.inFlight == [] && dev.accepted == [] && pool.lent == multiset{}
      modifies ops, processed, pool, dev, this
      ensures end == Done ==> enqdTotal == deqdTotal == |dev.accepted| == total && unused == 0
      ensures end == Done ==> multiset(dev.accepted) == pool.lent
      ensures end == Done ==> multiset(pool.free) == multiset(old(pool.free)) && dev.inFlight == []
      ensures end == PoolExhausted ==> Starved(total, burst, multiset(old(pool.free)))
      ensures end == PoolExhausted ==> |dev.inFlight| + Min(burst, total - enqdTotal) > |old(pool.free)|
      ensures |old(pool.free)| >= total ==> end != PoolExhausted
      ensures dev.idle >= old(dev.idle)
      ensures end == Waiting ==>
        || (dev.polled == old(dev.polled) + bursts && bursts <= enqdTotal + deqdTotal + (dev.idle - old(dev.idle)) && enqdTotal < total)
        || (dev.polled >= old(dev.polled) + polls && polls <= deqdTotal + (dev.idle - old(dev.idle)) && deqdTotal < total)
    {
      ghost var all := multiset(pool.free);
      enqd, unused, enqdTotal, deqdTotal := 0, 0, 0, 0;
      assert Unsent() == [];
      end := SendAll(total, burst, bursts, all);
      if end == PoolExhausted {
        StarvedDevice(total, burst, all);
      } else if end == Done {
        end := Drain(total, burst, polls, all);
        assert Unsent() == [];
      }
    }

    /** The next burst needs more new operations than the pool holds; the books are balanced. */
    ghost predicate Starved(total: nat, burst: nat, all: multiset<Op>)
      reads this, ops, pool, dev
    {
      && Slots(total, burst) && Balanced(all) && enqdTotal < total
      && Min(burst, total - enqdTotal) - unused > |pool.free|
    }

    /** When the pool runs out, the device and the next burst together exceed all operations. */
    lemma StarvedDevice(total: nat, burst: nat, all: multiset<Op>)
      requires Starved(total, burst, all)
      ensures |dev.inFlight| + Min(burst, total - enqdTotal) > |all| && |all| < total
    {
      EnoughFree(pool.free, dev.inFlight, Unsent(), all);
    }

    /** The first loop: until all operations are accepted. */
    method SendAll(total: nat, burst: nat, bursts: nat, ghost all: multiset<Op>) returns (end: End)
      requires Slots(total, burst) && Balanced(all) && enqdTotal == 0
      modifies ops, processed, pool, dev, this
      ensures Slots(total, burst) && Balanced(all)
      ensures end == Done ==> enqdTotal == total
      ensures end == PoolExhausted ==> Starved(total, burst, all)
      ensures dev.idle >= old(dev.idle) && dev.polled >= old(dev.polled)
      ensures end == Waiting ==> enqdTotal < total && dev.polled == old(dev.polled) + bursts
      ensures end == Waiting ==> bursts <= enqdTotal + deqdTotal + (dev.idle - old(dev.idle))
    {
      ghost var polled, idle := dev.polled, dev.idle;
      var left := bursts;
      while enqdTotal < total && left > 0
        invariant Slots(total, burst) && Balanced(all)
        invariant dev.polled + left == polled + bursts && dev.idle >= idle
        invariant bursts - left <= enqdTotal + deqdTotal + (dev.idle - idle)
        decreases left
      {
        var ok := Send(total, burst, all);
        if !ok {
          return PoolExhausted;
        }
        Collect(burst, all);
        left := left - 1;
      }
      end := if enqdTotal < total then Waiting else Done;
    }

    /** The second loop: until all operations came back. */
    method Drain(total: nat, burst: nat, polls: nat, ghost all: multiset<Op>) returns (end: End)
      requires Slots(total, burst) && Balanced(all) && enqdTotal == total
      modifies processed, pool`free, dev`inFlight, dev`polled, dev`idle, this`deqdTotal
      ensures Slots(total, burst) && Balanced(all) && end != PoolExhausted
      ensures end == Done ==> deqdTotal == total
      ensures dev.idle >= old(dev.idle)
      ensures end == Waiting ==> deqdTotal < total && dev.polled == old(dev.polled) + polls
      ensures end == Waiting ==> polls <= deqdTotal + (dev.idle - old(dev.idle))
    {
      ghost var polled, idle := dev.polled, dev.idle;
      var left := polls;
      while deqdTotal < total && left > 0
        invariant Slots(total, burst) && Balanced(all)
        invariant dev.polled + left == polled + polls && dev.idle >= idle
        invariant polls - left <= deqdTotal + (dev.idle - idle)
        decreases left
      {
        Collect(burst, all);
        left := left - 1;
      }
      end := if deqdTotal < total then Waiting else Done;
    }
  }

  /** Two sequences with the same end agree on every slice of it. */
  lemma TailSlice(a: seq<Op>, b: seq<Op>, k: nat, i: nat, j: nat)
    requires k <= i <= j <= |a| == |b| && a[k..] == b[k..]
    ensures a[i..j] == b[i..j]
  {
    forall m | 0 <= m < j - i ensures a[i..j][m] == b[i..j][m] {
      assert a[i + m] == a[k..][i + m - k];
      assert b[i + m] == b[k..][i + m - k];
    }
  }

  lemma Grown(after: seq<Op>, before: seq<Op>, added: seq<Op>)
    requires multiset(after) == multiset(before) + multiset(added)
    ensures |after| == |before| + |added|
  {
    Sizes(after);
    Sizes(before);
    Sizes(added);
  }

  lemma EnoughFree(free: seq<Op>, inFlight: seq<Op>, unsent: seq<Op>, all: multiset<Op>)
    requires multiset(free) + multiset(inFlight) + multiset(unsent) == all
    ensures |free| + |inFlight| + |unsent| == |all|
  {
  }
}
