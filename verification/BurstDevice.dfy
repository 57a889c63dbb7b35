/** What the burst harnesses see of DPDK: a pool that lends operations in bulk, and a device queue
    that accepts a prefix of a burst and later gives back what it accepted. */
module BurstDevice {

  /** An operation, named by the address the pool handed out. */
  type Op = nat

  /** How a benchmark loop ended: finished, out of operations, or still waiting for the hardware. */
  datatype End = Done | PoolExhausted | Waiting

  function Min(a: nat, b: nat): nat { if a < b then a else b }

  /** A stretch of slots, cut in two. */
  lemma Cut(a: array<Op>, i: nat, j: nat, k: nat)
    requires i <= j <= k <= a.Length
    ensures multiset(a[i..k]) == multiset(a[i..j]) + multiset(a[j..k])
  {
    assert a[i..k] == a[i..j] + a[j..k];
  }

  /** rte_mempool: bulk get is all or nothing, and says nothing about which objects it lends. */
  class Pool {
    var free: seq<Op>
    /** Every operation ever lent, with repetitions. */
    ghost var lent: multiset<Op>

    constructor (size: nat)
      ensures free == seq(size, i => i) && lent == multiset{}
    {
      free := seq(size, i => i);
      lent := multiset{};
    }

    method GetBulk(ops: array<Op>, at: nat, n: nat) returns (ok: bool)
      requires at + n <= ops.Length
      modifies this, ops
      ensures ok == (n <= |old(free)|)
      ensures ok ==> multiset(ops[at..at + n]) + multiset(free) == multiset(old(free)) && |free| == |old(free)| - n
      ensures !ok ==> free == old(free)
      ensures lent == old(lent) + (if ok then multiset(ops[at..at + n]) else multiset{})
      ensures ops[..at] == old(ops[..at]) && ops[at + n..] == old(ops[at + n..])
      ensures !ok ==> ops[..] == old(ops[..])
    {
      ok := n <= |free|;
      if ok {
        ghost var below, above := ops[..at], ops[at + n..];
        forall i | 0 <= i < n {
          ops[at + i] := free[i];
        }
        assert ops[..at] == below && ops[at + n..] == above;
        assert ops[at..at + n] == free[..n];
        assert free == free[..n] + free[n..];
        free := free[n..];
        lent := lent + multiset(ops[at..at + n]);
      }
    }

    method PutBulk(ops: array<Op>, at: nat, n: nat)
      requires at + n <= ops.Length
      modifies this`free
      ensures free == old(free) + ops[at..at + n]
    {
      free := free + ops[at..at + n];
    }
  }

  /** A device queue pair with no promise about how much it takes, when it finishes, or in which order. */
  class AnyOrderQueue {
    var inFlight: seq<Op>
    /** Every operation ever accepted, in order. */
    ghost var accepted: seq<Op>
    /** How often it was polled for finished operations, and how many calls of either kind asked for
        something and moved nothing. */
    ghost var polled: nat
    ghost var idle: nat

    constructor ()
      ensures inFlight == [] && accepted == [] && polled == idle == 0
    {
      inFlight, accepted := [], [];
      polled, idle := 0, 0;
    }

    method EnqueueBurst(ops: array<Op>, at: nat, n: nat) returns (taken: nat)
      requires at + n <= ops.Length
      modifies this
      ensures taken <= n
      ensures multiset(inFlight) == multiset(old(inFlight)) + multiset(ops[at..at + taken])
      ensures accepted == old(accepted) + ops[at..at + taken]
      ensures polled == old(polled) && idle == old(idle) + (if taken == 0 < n then 1 else 0)
    {
      var wanted: int := *;
      taken := if 0 <= wanted <= n then wanted else n;
      inFlight := inFlight + ops[at..at + taken];
      accepted := accepted + ops[at..at + taken];
      idle := idle + if taken == 0 < n then 1 else 0;
    }

    method DequeueBurst(ops: array<Op>, at: nat, n: nat) returns (got: nat)
      requires at + n <= ops.Length
      modifies this`inFlight, this`polled, this`idle, ops
      ensures got <= n && got <= |old(inFlight)|
      ensures polled == old(polled) + 1 && idle == old(idle) + (if got == 0 < n then 1 else 0)
      ensures multiset(ops[at..at + got]) + multiset(inFlight) == multiset(old(inFlight))
      ensures ops[..at] == old(ops[..at]) && ops[at + got..] == old(ops[at + got..])
    {
      var ready: int := *;
      got := if 0 <= ready <= n && ready <= |inFlight| then ready else if n < |inFlight| then n else |inFlight|;
      ghost var below, above := ops[..at], ops[at + got..];
      forall i | 0 <= i < got {
        ops[at + i] := inFlight[i];
      }
      assert ops[..at] == below && ops[at + got..] == above;
      assert ops[at..at + got] == inFlight[..got];
      assert inFlight == inFlight[..got] + inFlight[got..];
      inFlight := inFlight[got..];
      polled, idle := polled + 1, idle + if got == 0 < n then 1 else 0;
    }
  }
}
