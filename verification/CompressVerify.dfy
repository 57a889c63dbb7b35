/** The verify test of the compression benchmark (app/test-compress-perf/comp_perf_test_verify.c):
    one pass over all buffers through a device that takes partial bursts, and the runner that
    compresses, decompresses and compares. */
module CompressVerify {
  import opened BurstDevice
  import opened CompressBuffers
  import opened CompressDevice

  /** The output of a pass: the results of the first n chains, in order. */
  function Outputs(codec: Codec, src: seq<Mbuf>, n: nat): seq<Byte>
    requires n <= |src| && forall m :: m in src ==> Readable(m)
  {
    if n == 0 then [] else Outputs(codec, src, n - 1) + Result(codec, src, n - 1)
  }

  predicate Fits(codec: Codec, src: seq<Mbuf>, segs: seq<nat>, room: nat, x: nat)
    requires x < |src| == |segs| && Readable(src[x])
  {
    |Result(codec, src, x)| <= segs[x] * room
  }

  /** The results of the first n chains fit. */
  ghost predicate AllFit(codec: Codec, src: seq<Mbuf>, segs: seq<nat>, room: nat, n: nat)
    requires n <= |src| == |segs| && forall m :: m in src ==> Readable(m)
  {
    forall x :: 0 <= x < n ==> Fits(codec, src, segs, room, x)
  }

  lemma AllFitNext(codec: Codec, src: seq<Mbuf>, segs: seq<nat>, room: nat, n: nat)
    requires n < |src| == |segs| && forall m :: m in src ==> Readable(m)
    requires AllFit(codec, src, segs, room, n) && Fits(codec, src, segs, room, n)
    ensures AllFit(codec, src, segs, room, n + 1)
  {
  }

  /** A pass that met the first result without room, having put out all results before it. */
  ghost predicate Stuck(codec: Codec, src: seq<Mbuf>, segs: seq<nat>, room: nat, output: seq<Byte>)
    requires |src| == |segs| && forall m :: m in src ==> Readable(m)
  {
    exists x :: 0 <= x < |src| && !Fits(codec, src, segs, room, x)
      && AllFit(codec, src, segs, room, x) && output == Outputs(codec, src, x)
  }

  function SegCounts(bufs: seq<Mbuf>): seq<nat> {
    seq(|bufs|, x requires 0 <= x < |bufs| => |bufs[x].segs|)
  }

  // ---------- operation objects ----------

  /** How often an operation object is in the pool, the device and the slots together. */
  function Places(free: seq<Op>, inFlight: seq<Op>, unsent: seq<Op>, id: Op): nat {
    multiset(free)[id] + multiset(inFlight)[id] + multiset(unsent)[id]
  }

  /** Every operation object is in exactly one place. */
  ghost predicate OnePlace(free: seq<Op>, inFlight: seq<Op>, unsent: seq<Op>, n: nat) {
    forall id: Op :: Places(free, inFlight, unsent, id) == if id < n then 1 else 0
  }

  /** Every operation object is in the pool, once. */
  ghost predicate Whole(free: seq<Op>, n: nat) {
    OnePlace(free, [], [], n) && |free| == n
  }

  lemma Twice(s: seq<Op>, i: nat, j: nat)
    requires i < j < |s| && s[i] == s[j]
    ensures multiset(s)[s[i]] >= 2
  {
    assert s == s[..j] + s[j..];
    assert s[i] in s[..j] && s[i] in s[j..];
  }

  /** Freshly lent objects are distinct, and none of them is in use. */
  lemma NewObjects(free: seq<Op>, inFlight: seq<Op>, unsent: seq<Op>, n: nat, front: seq<Op>, free': seq<Op>)
    requires OnePlace(free, inFlight, unsent, n) && multiset(front) + multiset(free') == multiset(free)
    ensures OnePlace(free', inFlight, unsent + front, n)
    ensures NewSlots(inFlight, unsent + front, |unsent|, n)
  {
    Lent(free, inFlight, unsent, n, front, free');
    var slots := unsent + front;
    forall j | |unsent| <= j < |slots| ensures slots[j] < n && slots[j] !in inFlight && slots[j] !in slots[..j] {
      var id := slots[j];
      assert id == front[j - |unsent|] && id in multiset(slots);
      assert Places(free', inFlight, slots, id) == 1;
      if id in slots[..j] {
        var i :| 0 <= i < j && slots[i] == id;
        Twice(slots, i, j);
        assert false;
      }
    }
  }

  lemma Lent(free: seq<Op>, inFlight: seq<Op>, unsent: seq<Op>, n: nat, front: seq<Op>, free': seq<Op>)
    requires OnePlace(free, inFlight, unsent, n) && multiset(front) + multiset(free') == multiset(free)
    ensures OnePlace(free', inFlight, unsent + front, n)
  {
    assert multiset(unsent + front) == multiset(unsent) + multiset(front);
    forall id: Op ensures Places(free', inFlight, unsent + front, id) == Places(free, inFlight, unsent, id) {
      assert (multiset(front) + multiset(free'))[id] == multiset(free)[id];
    }
  }

  // ---------- chains ----------

  /** Chain x holds its result, with its lengths set. */
  predicate SetChain(codec: Codec, src: seq<Mbuf>, m: Mbuf, segs: seq<nat>, room: nat, x: nat)
    requires x < |src| == |segs| && Readable(src[x])
  {
    && PacketChain(m, Result(codec, src, x), room) && |m.segs| == segs[x]
    && Fits(codec, src, segs, room, x)
  }

  /** Chains below `done` hold their results, chains from there to `ready` are reset. */
  ghost predicate Chains(codec: Codec, src: seq<Mbuf>, dst: seq<Mbuf>, segs: seq<nat>, room: nat, done: nat, ready: nat)
    requires forall m :: m in src ==> Readable(m)
  {
    && |src| == |dst| == |segs| && done <= ready <= |src|
    && (forall x :: 0 <= x < |dst| ==> |dst[x].segs| == segs[x] > 0 && Rooms(dst[x].segs, room))
    && (forall x :: done <= x < ready ==> ReadyChain(dst[x], room))
    && (forall x :: 0 <= x < done ==> SetChain(codec, src, dst[x], segs, room, x))
  }

  /** Resetting an output chain before its operation is enqueued. */
  method ResetChain(m: Mbuf, room: nat) returns (r: Mbuf)
    requires m.segs != [] && Rooms(m.segs, room)
    ensures ReadyChain(r, room) && |r.segs| == |m.segs|
  {
    var done: seq<Seg>, next := [], m.segs;
    while next != []
      invariant |done| + |next| == |m.segs| && Rooms(next, room)
      invariant Full(done) && Rooms(done, room)
      decreases |next|
    {
      done := done + [next[0].(len := |next[0].store|)];
      next := next[1..];
    }
    RoomsCapacity(done, room);
    r := Mbuf(done, room * |m.segs|);
  }

  /** Where the operation objects are, and which buffers they carry: those in flight the buffers
      from `deq` on, the unsent ones those from `enq` on; buffers 0, 1, .. were accepted in order. */
  ghost predicate Ledger(free: seq<Op>, inFlight: seq<Op>, unsent: seq<Op>, rec: seq<OpRec>, accepted: seq<nat>,
                         deq: nat, enq: nat, n: nat) {
    && OnePlace(free, inFlight, unsent, n)
    && Numbered(rec, inFlight, deq) && Numbered(rec, unsent, enq)
    && deq + |inFlight| == enq && accepted == From(0, enq)
  }

  lemma LedgerOffered(free: seq<Op>, inFlight: seq<Op>, a: seq<Op>, b: seq<Op>, rec: seq<OpRec>, accepted: seq<nat>,
                      deq: nat, enq: nat, n: nat)
    requires Ledger(free, inFlight, a + b, rec, accepted, deq, enq, n)
    ensures Ledger(free, inFlight + a, b, rec, accepted + From(enq, |a|), deq, enq + |a|, n)
  {
    MoveToDevice(free, inFlight, a, b, n);
    NumberedSplit(rec, inFlight, deq, a, b);
    assert From(0, enq + |a|) == From(0, enq) + From(enq, |a|);
  }

  lemma LedgerCollected(free: seq<Op>, a: seq<Op>, b: seq<Op>, unsent: seq<Op>, rec: seq<OpRec>, accepted: seq<nat>,
                        deq: nat, enq: nat, n: nat)
    requires Ledger(free, a + b, unsent, rec, accepted, deq, enq, n)
    ensures Ledger(free + a, b, unsent, rec, accepted, deq + |a|, enq, n)
  {
    MoveToPool(free, a, b, unsent, n);
    forall j | 0 <= j < |b| ensures b[j] < |rec| && rec[b[j]].buf == deq + |a| + j {
      assert (a + b)[|a| + j] == b[j];
    }
  }

  /** From `from` on, the slots hold objects that are nowhere else. */
  predicate NewSlots(inFlight: seq<Op>, slots: seq<Op>, from: nat, n: nat) {
    forall j :: from <= j < |slots| ==> slots[j] < n && slots[j] !in inFlight && slots[j] !in slots[..j]
  }

  /** Operations `a` moved from the front of the slots to the back of the device queue. */
  lemma NumberedSplit(rec: seq<OpRec>, inFlight: seq<Op>, first: nat, a: seq<Op>, b: seq<Op>)
    requires Numbered(rec, inFlight, first) && Numbered(rec, a + b, first + |inFlight|)
    ensures Numbered(rec, inFlight + a, first) && Numbered(rec, b, first + |inFlight| + |a|)
  {
    forall j | 0 <= j < |a| ensures a[j] < |rec| && rec[a[j]].buf == first + |inFlight| + j {
      assert (a + b)[j] == a[j];
    }
    forall j | 0 <= j < |b| ensures b[j] < |rec| && rec[b[j]].buf == first + |inFlight| + |a| + j {
      assert (a + b)[|a| + j] == b[j];
    }
  }

  lemma NumberedUpdate(rec: seq<OpRec>, ids: seq<Op>, first: nat, id: Op, r: OpRec)
    requires Numbered(rec, ids, first) && id < |rec| && id !in ids
    ensures Numbered(rec[id := r], ids, first)
  {
  }

  lemma NumberedAppend(rec: seq<OpRec>, ids: seq<Op>, first: nat, id: Op)
    requires Numbered(rec, ids, first) && id < |rec| && rec[id].buf == first + |ids|
    ensures Numbered(rec, ids + [id], first)
  {
  }

  /** The chains after one more of them was reset. */
  lemma ChainsReset(codec: Codec, src: seq<Mbuf>, dst: seq<Mbuf>, segs: seq<nat>, room: nat, done: nat, ready: nat, r: Mbuf)
    requires forall m :: m in src ==> Readable(m)
    requires Chains(codec, src, dst, segs, room, done, ready) && ready < |dst|
    requires ReadyChain(r, room) && |r.segs| == segs[ready]
    ensures Chains(codec, src, dst[ready := r], segs, room, done, ready + 1)
  {
  }

  /** Operations `a` moved from the slots to the device. */
  lemma MoveToDevice(free: seq<Op>, inFlight: seq<Op>, a: seq<Op>, b: seq<Op>, n: nat)
    requires OnePlace(free, inFlight, a + b, n)
    ensures OnePlace(free, inFlight + a, b, n)
  {
    forall id: Op ensures Places(free, inFlight + a, b, id) == Places(free, inFlight, a + b, id) {
      assert multiset(inFlight + a) == multiset(inFlight) + multiset(a);
      assert multiset(a + b) == multiset(a) + multiset(b);
    }
  }

  /** Operations `a` moved from the device to the pool. */
  lemma MoveToPool(free: seq<Op>, a: seq<Op>, b: seq<Op>, unsent: seq<Op>, n: nat)
    requires OnePlace(free, a + b, unsent, n)
    ensures OnePlace(free + a, b, unsent, n)
  {
    forall id: Op ensures Places(free + a, b, unsent, id) == Places(free, a + b, unsent, id) {
      assert multiset(free + a) == multiset(free) + multiset(a);
      assert multiset(a + b) == multiset(a) + multiset(b);
    }
  }

  /** A finished operation `r` on chain m of n segments, whose result is `bytes`. */
  predicate Job(r: OpRec, m: Mbuf, bytes: seq<Byte>, n: nat, room: nat) {
    && (r.ok <==> |bytes| <= n * room)
    && (r.ok ==> r.produced == |bytes| && |m.segs| == n && FilledChain(m, bytes, room))
  }

  lemma JobDone(r: OpRec, before: Mbuf, after: Mbuf, bytes: seq<Byte>, n: nat, room: nat)
    requires CompressDevice.Finished(r, before, after, bytes) && ReadyChain(before, room) && |before.segs| == n
    ensures Job(r, after, bytes, n, room)
  {
    RoomsCapacity(before.segs, room);
    if r.ok {
      Filled(before, bytes, room);
    }
  }

  /** Operation ids[j] finished chain first + j: done with its result, or out of space. */
  predicate JobOf(codec: Codec, src: seq<Mbuf>, dst: seq<Mbuf>, segs: seq<nat>, room: nat, rec: seq<OpRec>, ids: seq<Op>,
                  first: nat, j: nat)
    requires |src| == |dst| == |segs| && j < |ids| && first + j < |src| && Readable(src[first + j])
  {
    && ids[j] < |rec| && rec[ids[j]].buf == first + j
    && Job(rec[ids[j]], dst[first + j], Result(codec, src, first + j), segs[first + j], room)
  }

  predicate Jobs(codec: Codec, src: seq<Mbuf>, dst: seq<Mbuf>, segs: seq<nat>, room: nat, rec: seq<OpRec>, ids: seq<Op>, first: nat)
    requires forall m :: m in src ==> Readable(m)
  {
    && |src| == |dst| == |segs| && first + |ids| <= |src|
    && forall j {:trigger JobOf(codec, src, dst, segs, room, rec, ids, first, j)} ::
         0 <= j < |ids| ==> JobOf(codec, src, dst, segs, room, rec, ids, first, j)
  }

  lemma JobAt(codec: Codec, src: seq<Mbuf>, dst: seq<Mbuf>, segs: seq<nat>, room: nat, rec: seq<OpRec>, ids: seq<Op>,
              first: nat, j: nat)
    requires forall m :: m in src ==> Readable(m)
    requires Jobs(codec, src, dst, segs, room, rec, ids, first) && j < |ids|
    ensures ids[j] < |rec| && rec[ids[j]].buf == first + j < |src| == |dst| == |segs|
    ensures Job(rec[ids[j]], dst[first + j], Result(codec, src, first + j), segs[first + j], room)
    ensures Outputs(codec, src, first + j + 1) == Outputs(codec, src, first + j) + Result(codec, src, first + j)
    ensures rec[ids[j]].ok <==> Fits(codec, src, segs, room, first + j)
  {
    assert JobOf(codec, src, dst, segs, room, rec, ids, first, j);
  }

  predicate AllOk(rec: seq<OpRec>, ids: seq<Op>) {
    forall j :: 0 <= j < |ids| ==> ids[j] < |rec| && rec[ids[j]].ok
  }

  lemma OkIfFit(codec: Codec, src: seq<Mbuf>, dst: seq<Mbuf>, segs: seq<nat>, room: nat, rec: seq<OpRec>, ids: seq<Op>,
                first: nat)
    requires forall m :: m in src ==> Readable(m)
    requires Jobs(codec, src, dst, segs, room, rec, ids, first) && AllFit(codec, src, segs, room, first + |ids|)
    ensures AllOk(rec, ids)
  {
    forall j | 0 <= j < |ids| ensures ids[j] < |rec| && rec[ids[j]].ok {
      JobAt(codec, src, dst, segs, room, rec, ids, first, j);
    }
  }

  /** The chains after `got` more of them hold their results. */
  lemma ChainsDone(codec: Codec, src: seq<Mbuf>, dst: seq<Mbuf>, dst': seq<Mbuf>, segs: seq<nat>, room: nat,
                   done: nat, got: nat, ready: nat)
    requires forall m :: m in src ==> Readable(m)
    requires Chains(codec, src, dst, segs, room, done, ready) && done + got <= ready
    requires SameOutside(dst, dst', done, done + got)
    requires forall x :: done <= x < done + got ==> SetChain(codec, src, dst'[x], segs, room, x)
    ensures Chains(codec, src, dst', segs, room, done + got, ready)
  {
  }

  lemma ChainsFit(codec: Codec, src: seq<Mbuf>, dst: seq<Mbuf>, segs: seq<nat>, room: nat, done: nat, ready: nat)
    requires (forall m :: m in src ==> Readable(m)) && Chains(codec, src, dst, segs, room, done, ready)
    ensures AllFit(codec, src, segs, room, done)
  {
    forall x | 0 <= x < done ensures Fits(codec, src, segs, room, x) {
      assert SetChain(codec, src, dst[x], segs, room, x);
    }
  }

  /** Two sequences with the same beginning agree on every slice of it. */
  lemma SameSlice<T>(a: seq<T>, b: seq<T>, k: nat, i: nat, j: nat)
    requires i <= j <= k <= |a| == |b| && a[..k] == b[..k]
    ensures a[i..j] == b[i..j]
  {
    assert a[i..j] == a[..k][i..j];
    assert b[i..j] == b[..k][i..j];
  }

  /** Finishing operations does not move them to other buffers. */
  lemma LedgerKept(free: seq<Op>, inFlight: seq<Op>, unsent: seq<Op>, rec: seq<OpRec>, rec': seq<OpRec>,
                   accepted: seq<nat>, deq: nat, enq: nat, n: nat)
    requires Ledger(free, inFlight, unsent, rec, accepted, deq, enq, n) && SameBufs(rec, rec')
    ensures Ledger(free, inFlight, unsent, rec', accepted, deq, enq, n)
  {
  }

  /** What the device finished, on chains that had been reset. */
  lemma JobsDone(codec: Codec, src: seq<Mbuf>, dst: seq<Mbuf>, dst': seq<Mbuf>, segs: seq<nat>, room: nat,
                 rec: seq<OpRec>, ids: seq<Op>, first: nat, ready: nat)
    requires forall m :: m in src ==> Readable(m)
    requires Chains(codec, src, dst, segs, room, first, ready) && |dst'| == |dst| && first + |ids| <= ready
    requires Numbered(rec, ids, first) && AllFinished(codec, src, dst, dst', rec, ids, first)
    ensures Jobs(codec, src, dst', segs, room, rec, ids, first)
  {
    forall j | 0 <= j < |ids|
      ensures JobOf(codec, src, dst', segs, room, rec, ids, first, j)
    {
      JobDone(rec[ids[j]], dst[first + j], dst'[first + j], Result(codec, src, first + j), segs[first + j], room);
    }
  }

  datatype PassEnd = Finished | OutOfSpace | Polling

  class Pass {
    /** Slots for unsent operations, and behind `total` of them the slots for finished ones. */
    const ops: array<Op>
    const pool: Pool
    const dev: FifoDevice
    const mem: OpMemory
    const total: nat
    const burst: nat
    const room: nat
    const segs: seq<nat>
    var numEnq: nat
    var unused: nat
    var totalEnq: nat
    var totalDeq: nat
    var lent: int
    var output: seq<Byte>

    constructor (ops: array<Op>, pool: Pool, dev: FifoDevice, mem: OpMemory, burst: nat, room: nat)
      requires burst > 0 && ops.Length == 2 * |mem.dst| == |mem.rec| && |mem.src| == |mem.dst|
      requires forall m :: m in mem.src ==> Readable(m)
      requires forall m :: m in mem.dst ==> m.segs != [] && Rooms(m.segs, room)
      requires Whole(pool.free, 2 * |mem.dst|) && dev.inFlight == [] && dev.accepted == []
      ensures this.ops == ops && this.pool == pool && this.dev == dev && this.mem == mem
      ensures total == |mem.dst| && this.room == room && segs == SegCounts(mem.dst)
      ensures Valid() && totalEnq == totalDeq == 0
    {
      this.ops, this.pool, this.dev, this.mem := ops, pool, dev, mem;
      this.burst, this.room, total := burst, room, |mem.dst|;
      segs := SegCounts(mem.dst);
      numEnq, unused, totalEnq, totalDeq, lent, output := 0, 0, 0, 0, 0, [];
    }

    /** Sizes that never change during a pass. */
    predicate Fixed()
      reads mem`rec, mem`dst
    {
      && burst > 0 && ops.Length == 2 * total == |mem.rec| && |mem.src| == |mem.dst| == |segs| == total
      && (forall m :: m in mem.src ==> Readable(m))
    }

    function Unsent(): seq<Op>
      requires numEnq + unused <= ops.Length
      reads this, ops
    {
      ops[numEnq..numEnq + unused]
    }

    /** The counters of main_loop; `lent` counts the operations out of the pool. */
    predicate Counters()
      reads this, dev, pool
    {
      && totalEnq + unused <= total && unused <= burst && numEnq + unused <= total
      && totalDeq <= totalEnq && |dev.inFlight| == totalEnq - totalDeq
      && lent == unused + |dev.inFlight| <= total
      && |pool.free| == 2 * total - lent
    }

    ghost predicate Operations()
      requires numEnq + unused <= ops.Length
      reads this, ops, pool, dev, mem
    {
      Ledger(pool.free, dev.inFlight, Unsent(), mem.rec, dev.accepted, totalDeq, totalEnq, 2 * total)
    }

    ghost predicate Buffers()
      requires Fixed()
      reads this, dev, mem
    {
      && Chains(dev.codec, mem.src, mem.dst, segs, room, totalDeq, totalEnq + unused)
      && output == Outputs(dev.codec, mem.src, totalDeq)
    }

    ghost predicate Valid()
      reads this, ops, pool, dev, mem
    {
      Fixed() && Counters() && Operations() && Buffers()
    }

    /** Moves the unsent operations to the front, where they keep their order. */
    method MoveToFront()
      requires numEnq + unused <= ops.Length
      modifies ops, this`numEnq
      ensures numEnq == 0 && Unsent() == old(Unsent())
    {
      ghost var unsent := Unsent();
      if unused > 0 && numEnq > 0 {
        forall i | 0 <= i < unused {
          ops[i] := ops[numEnq + i];
        }
      }
      numEnq := 0;
      assert Unsent() == unsent;
    }

    /** The first k slots are attached to buffers, and those buffers are reset. */
    ghost predicate Attached(k: nat)
      reads this, ops, dev, mem
    {
      && Fixed() && k <= ops.Length
      && Numbered(mem.rec, dev.inFlight, totalDeq) && Numbered(mem.rec, ops[..k], totalEnq)
      && Chains(dev.codec, mem.src, mem.dst, segs, room, totalDeq, totalEnq + k)
    }

    /** Resets the next output chain and attaches it to the operation in slot k. */
    method AttachOne(k: nat)
      requires Attached(k) && k < ops.Length && totalEnq + k < total
      requires ops[k] < |mem.rec| && ops[k] !in dev.inFlight && ops[k] !in ops[..k]
      modifies mem
      ensures Attached(k + 1)
    {
      var bufId, id := totalEnq + k, ops[k];
      var r := ResetChain(mem.dst[bufId], room);
      ghost var rec, slots := mem.rec, ops[..k];
      ChainsReset(dev.codec, mem.src, mem.dst, segs, room, totalDeq, bufId, r);
      NumberedUpdate(rec, dev.inFlight, totalDeq, id, OpRec(bufId, 0, false));
      NumberedUpdate(rec, slots, totalEnq, id, OpRec(bufId, 0, false));
      mem.dst := mem.dst[bufId := r];
      mem.rec := mem.rec[id := OpRec(bufId, 0, false)];
      NumberedAppend(mem.rec, slots, totalEnq, id);
      assert ops[..k + 1] == slots + [id];
    }

    /** Attaches the next buffers to the new operations in ops[unused..size). */
    method Attach(size: nat)
      requires Attached(unused) && unused <= size <= ops.Length && totalEnq + size <= total
      requires NewSlots(dev.inFlight, ops[..size], unused, 2 * total)
      modifies mem
      ensures Attached(size)
    {
      var i, needed := 0, size - unused;
      while i < needed
        invariant i <= needed && Attached(unused + i)
      {
        assert ops[..size][unused + i] == ops[unused + i] && ops[..size][..unused + i] == ops[..unused + i];
        AttachOne(unused + i);
        i := i + 1;
      }
    }

    /** New operations behind the unsent ones: afterwards slots 0..size are all to be sent. */
    method Refill(size: nat)
      requires ops.Length == 2 * total && unused <= size <= total && size - unused <= |pool.free|
      requires OnePlace(pool.free, dev.inFlight, ops[..unused], 2 * total)
      modifies ops, pool, this`lent
      ensures ops[..unused] == old(ops[..unused])
      ensures OnePlace(pool.free, dev.inFlight, ops[..size], 2 * total)
      ensures |pool.free| == |old(pool.free)| - (size - unused) && lent == old(lent) + (size - unused)
      ensures NewSlots(dev.inFlight, ops[..size], unused, 2 * total)
    {
      ghost var free, unsent := pool.free, ops[..unused];
      var ok := pool.GetBulk(ops, unused, size - unused);
      assert ok;
      ghost var front := ops[unused..size];
      NewObjects(free, dev.inFlight, unsent, 2 * total, front, pool.free);
      assert ops[..size] == unsent + front;
      lent := lent + (size - unused);
    }

    /** The enqueue: what the device did not take stays in the slots. */
    method Push(size: nat)
      requires size <= ops.Length && Numbered(mem.rec, ops[..size], totalEnq)
      modifies dev, this`numEnq, this`unused, this`totalEnq
      ensures numEnq + unused == size && totalEnq == old(totalEnq) + numEnq && Unsent() == ops[numEnq..size]
      ensures dev.inFlight == old(dev.inFlight) + ops[..numEnq]
      ensures dev.accepted == old(dev.accepted) + From(old(totalEnq), numEnq)
      ensures dev.polled == old(dev.polled) && dev.idle == old(dev.idle) + (if numEnq == 0 < size then 1 else 0)
    {
      var n := dev.EnqueueBurst(mem, ops, size, totalEnq);
      numEnq, unused, totalEnq := n, size - n, totalEnq + n;
    }

    /** Offers slots 0..size. */
    method Offer(size: nat)
      requires size <= ops.Length
      requires Ledger(pool.free, dev.inFlight, ops[..size], mem.rec, dev.accepted, totalDeq, totalEnq, 2 * total)
      modifies dev, this`numEnq, this`unused, this`totalEnq
      ensures numEnq + unused == size && totalEnq == old(totalEnq) + numEnq
      ensures dev.polled == old(dev.polled) && dev.idle == old(dev.idle) + (if numEnq == 0 < size then 1 else 0)
      ensures Operations()
    {
      ghost var inFlight, accepted, all, enq := dev.inFlight, dev.accepted, ops[..size], totalEnq;
      Push(size);
      ghost var a, b := ops[..numEnq], ops[numEnq..size];
      assert all == a + b;
      LedgerOffered(pool.free, inFlight, a, b, mem.rec, accepted, totalDeq, enq, 2 * total);
    }

    /** The unsent operations at the front, new ones behind them. */
    method FillSlots(size: nat)
      requires ops.Length == 2 * total && numEnq + unused <= ops.Length
      requires unused <= size <= total && size - unused <= |pool.free|
      requires OnePlace(pool.free, dev.inFlight, Unsent(), 2 * total)
      modifies ops, pool, this`numEnq, this`lent
      ensures numEnq == 0 && Unsent() == old(Unsent())
      ensures OnePlace(pool.free, dev.inFlight, ops[..size], 2 * total)
      ensures NewSlots(dev.inFlight, ops[..size], unused, 2 * total)
      ensures |pool.free| == |old(pool.free)| - (size - unused) && lent == old(lent) + (size - unused)
    {
      ghost var unsent := Unsent();
      MoveToFront();
      assert ops[..unused] == unsent;
      Refill(size);
      assert ops[..unused] == Unsent();
    }

    /** Slots 0..size are filled, attached and reset. */
    method Build(size: nat)
      requires Valid() && size == Min(total - totalEnq, burst)
      modifies ops, pool, mem, this`numEnq, this`lent
      ensures Attached(size) && unused <= size
      ensures Ledger(pool.free, dev.inFlight, ops[..size], mem.rec, dev.accepted, totalDeq, totalEnq, 2 * total)
      ensures |pool.free| == |old(pool.free)| - (size - unused) && lent == old(lent) + (size - unused)
    {
      FillSlots(size);
      assert ops[..unused] == Unsent();
      Attach(size);
    }

    /** The enqueue half of an iteration of the main loop. */
    method Send()
      requires Valid()
      modifies ops, pool, dev, mem, this`numEnq, this`unused, this`totalEnq, this`lent
      ensures Valid() && totalDeq == old(totalDeq) && dev.polled == old(dev.polled)
      ensures totalEnq >= old(totalEnq) && dev.idle >= old(dev.idle)
      ensures old(totalEnq) < total ==> totalEnq + dev.idle > old(totalEnq) + old(dev.idle)
    {
      var size := Min(total - totalEnq, burst);
      Build(size);
      Offer(size);
    }

    /** Reads the result of the operation in slot i of the finished ones, unless it ran out of space. */
    method ReadResult(i: nat, got: nat, ghost first: nat) returns (ok: bool, bytes: seq<Byte>)
      requires Fixed() && total + got <= ops.Length && i < got
      requires Jobs(dev.codec, mem.src, mem.dst, segs, room, mem.rec, ops[total..total + got], first)
      ensures first + i < total && ops[total + i] < |mem.rec|
      ensures ok == mem.rec[ops[total + i]].ok == Fits(dev.codec, mem.src, segs, room, first + i)
      ensures ok ==> Outputs(dev.codec, mem.src, first + i) + bytes == Outputs(dev.codec, mem.src, first + i + 1)
    {
      ghost var ids := ops[total..total + got];
      JobAt(dev.codec, mem.src, mem.dst, segs, room, mem.rec, ids, first, i);
      var op := ops[total + i];
      assert op == ids[i];
      ok, bytes := mem.rec[op].ok, [];
      if ok {
        var read;
        read, bytes := ReadChain(mem.dst[mem.rec[op].buf], mem.rec[op].produced);
      }
    }

    /** Checks the status of the finished operations and appends their results to the output. */
    method CopyOut(got: nat, ghost first: nat) returns (ok: bool)
      requires Fixed() && total + got <= ops.Length
      requires Jobs(dev.codec, mem.src, mem.dst, segs, room, mem.rec, ops[total..total + got], first)
      requires output == Outputs(dev.codec, mem.src, first) && AllFit(dev.codec, mem.src, segs, room, first)
      modifies this`output
      ensures ok ==> output == Outputs(dev.codec, mem.src, first + got) && AllOk(mem.rec, ops[total..total + got])
      ensures !ok ==> Stuck(dev.codec, mem.src, segs, room, output)
    {
      var i, text := 0, output;
      while i < got
        invariant i <= got && text == Outputs(dev.codec, mem.src, first + i)
        invariant AllFit(dev.codec, mem.src, segs, room, first + i)
      {
        var bytes;
        ok, bytes := ReadResult(i, got, first);
        if !ok {
          output := text;
          return;
        }
        AllFitNext(dev.codec, mem.src, segs, room, first + i);
        text := text + bytes;
        i := i + 1;
      }
      OkIfFit(dev.codec, mem.src, mem.dst, segs, room, mem.rec, ops[total..total + got], first);
      output := text;
      ok := true;
    }

    /** Sets the data lengths of the chains of finished operations. */
    method SetLengths(got: nat, ghost first: nat)
      requires Fixed() && total + got <= ops.Length && AllOk(mem.rec, ops[total..total + got])
      requires Jobs(dev.codec, mem.src, mem.dst, segs, room, mem.rec, ops[total..total + got], first)
      modifies mem`dst
      ensures SameOutside(old(mem.dst), mem.dst, first, first + got)
      ensures forall x :: first <= x < first + got ==> SetChain(dev.codec, mem.src, mem.dst[x], segs, room, x)
    {
      ghost var ids := ops[total..total + got];
      var i := 0;
      while i < got
        invariant i <= got && SameOutside(old(mem.dst), mem.dst, first, first + i)
        invariant forall x :: first <= x < first + i ==> SetChain(dev.codec, mem.src, mem.dst[x], segs, room, x)
      {
        var op := ops[total + i];
        assert ids[i] == op;
        JobAt(dev.codec, mem.src, old(mem.dst), segs, room, mem.rec, ids, first, i);
        var x := mem.rec[op].buf;
        Trimmed(mem.dst[x], Result(dev.codec, mem.src, x), room);
        var m := TrimChain(mem.dst[x], mem.rec[op].produced, room);
        mem.dst := mem.dst[x := m];
        i := i + 1;
      }
    }

    /** Takes finished operations from the device into the slots behind `total`. */
    method Dequeue() returns (got: nat)
      requires Valid()
      modifies ops, dev`inFlight, dev`polled, dev`idle, mem
      ensures dev.polled == old(dev.polled) + 1 && dev.idle == old(dev.idle) + (if got == 0 then 1 else 0)
      ensures Fixed() && got <= |old(dev.inFlight)| && |dev.inFlight| == |old(dev.inFlight)| - got
      ensures Jobs(dev.codec, mem.src, mem.dst, segs, room, mem.rec, ops[total..total + got], totalDeq)
      ensures Ledger(pool.free, ops[total..total + got] + dev.inFlight, Unsent(), mem.rec, dev.accepted,
                     totalDeq, totalEnq, 2 * total)
      ensures SameOutside(old(mem.dst), mem.dst, totalDeq, totalDeq + got)
    {
      ghost var inFlight, unsent, rec, dst := dev.inFlight, Unsent(), mem.rec, mem.dst;
      got := dev.DequeueBurst(mem, ops, total, burst, totalDeq);
      ghost var a := inFlight[..got];
      assert inFlight == a + dev.inFlight && ops[total..total + got] == a;
      SameSlice(ops[..], old(ops[..]), total, numEnq, numEnq + unused);
      assert Unsent() == unsent;
      LedgerKept(pool.free, inFlight, unsent, rec, mem.rec, dev.accepted, totalDeq, totalEnq, 2 * total);
      JobsDone(dev.codec, mem.src, dst, mem.dst, segs, room, mem.rec, a, totalDeq, totalEnq + unused);
    }

    /** Returns the finished operations to the pool. */
    method GiveBack(got: nat)
      requires total + got <= ops.Length && numEnq + unused <= ops.Length && got <= totalDeq
      requires Ledger(pool.free, ops[total..total + got] + dev.inFlight, Unsent(), mem.rec, dev.accepted,
                      totalDeq - got, totalEnq, 2 * total)
      modifies pool`free, this`lent
      ensures Operations() && |pool.free| == |old(pool.free)| + got && lent == old(lent) - got
    {
      ghost var a, free, unsent := ops[total..total + got], pool.free, Unsent();
      LedgerCollected(free, a, dev.inFlight, unsent, mem.rec, dev.accepted, totalDeq - got, totalEnq, 2 * total);
      pool.PutBulk(ops, total, got);
      lent := lent - got;
      assert Unsent() == unsent && pool.free == free + a;
    }

    /** Checks, copies out, trims and returns the operations just dequeued. */
    method Settle(got: nat) returns (ok: bool)
      requires Fixed() && total + got <= ops.Length && numEnq + unused <= ops.Length
      requires Jobs(dev.codec, mem.src, mem.dst, segs, room, mem.rec, ops[total..total + got], totalDeq)
      requires Ledger(pool.free, ops[total..total + got] + dev.inFlight, Unsent(), mem.rec, dev.accepted,
                      totalDeq, totalEnq, 2 * total)
      requires output == Outputs(dev.codec, mem.src, totalDeq) && AllFit(dev.codec, mem.src, segs, room, totalDeq)
      modifies pool`free, mem`dst, this`totalDeq, this`lent, this`output
      ensures !ok ==> Stuck(dev.codec, mem.src, segs, room, output)
      ensures ok ==> Fixed() && Operations() && totalDeq == old(totalDeq) + got
      ensures ok ==> output == Outputs(dev.codec, mem.src, totalDeq)
      ensures ok ==> |pool.free| == |old(pool.free)| + got && lent == old(lent) - got
      ensures ok ==> SameOutside(old(mem.dst), mem.dst, old(totalDeq), totalDeq)
      ensures ok ==> forall x :: old(totalDeq) <= x < totalDeq ==> SetChain(dev.codec, mem.src, mem.dst[x], segs, room, x)
    {
      ghost var unsent := Unsent();
      ok := CopyOut(got, totalDeq);
      assert Unsent() == unsent;
      if ok {
        Finish(got);
      }
    }

    /** Trims and returns finished operations. */
    method Finish(got: nat)
      requires Fixed() && total + got <= ops.Length && numEnq + unused <= ops.Length
      requires Jobs(dev.codec, mem.src, mem.dst, segs, room, mem.rec, ops[total..total + got], totalDeq)
      requires AllOk(mem.rec, ops[total..total + got])
      requires Ledger(pool.free, ops[total..total + got] + dev.inFlight, Unsent(), mem.rec, dev.accepted,
                      totalDeq, totalEnq, 2 * total)
      modifies pool`free, mem`dst, this`totalDeq, this`lent
      ensures Fixed() && Operations() && totalDeq == old(totalDeq) + got
      ensures |pool.free| == |old(pool.free)| + got && lent == old(lent) - got
      ensures SameOutside(old(mem.dst), mem.dst, old(totalDeq), totalDeq)
      ensures forall x :: old(totalDeq) <= x < totalDeq ==> SetChain(dev.codec, mem.src, mem.dst[x], segs, room, x)
    {
      ghost var unsent := Unsent();
      SetLengths(got, totalDeq);
      totalDeq := totalDeq + got;
      assert Unsent() == unsent;
      GiveBack(got);
    }

    /** The dequeue half of an iteration, which is also the whole drain loop. */
    method Receive() returns (ok: bool)
      requires Valid()
      modifies ops, pool`free, dev`inFlight, dev`polled, dev`idle, mem, this`totalDeq, this`lent, this`output
      ensures ok ==> Valid() && totalDeq >= old(totalDeq) && totalDeq + dev.idle > old(totalDeq) + old(dev.idle)
      ensures !ok ==> Stuck(dev.codec, mem.src, segs, room, output)
      ensures dev.polled == old(dev.polled) + 1 && dev.idle >= old(dev.idle)
    {
      ghost var dst, first: nat := mem.dst, totalDeq;
      ChainsFit(dev.codec, mem.src, dst, segs, room, first, totalEnq + unused);
      var got := Dequeue();
      ok := Settle(got);
      if ok {
        ChainsDone(dev.codec, mem.src, dst, mem.dst, segs, room, first, got, totalEnq + unused);
      }
    }

    /** Everything was enqueued and dequeued once and in order, and the pool is whole again. */
    ghost predicate Complete()
      reads this, pool, dev, mem
    {
      && Fixed() && output == Outputs(dev.codec, mem.src, total)
      && (forall x :: 0 <= x < total ==> SetChain(dev.codec, mem.src, mem.dst[x], segs, room, x))
      && dev.accepted == From(0, total) && dev.inFlight == [] && lent == 0 && Whole(pool.free, 2 * total)
    }

    /** A pass is over when its last operation came back. */
    lemma PassOver()
      requires Valid() && totalDeq == total
      ensures Complete()
    {
      assert Unsent() == [];
    }

    /** main_loop: the enqueue loop, then the drain loop. It stops early only at the first result
        without room, or after `polls` polls of a device that was idle too often: each iteration
        moves operations unless a call of it was idle. */
    method Run(polls: nat) returns (end: PassEnd)
      requires Valid() && totalEnq == totalDeq == 0
      modifies ops, pool, dev, mem, this
      ensures end.Finished? ==> Complete()
      ensures end.OutOfSpace? ==> Stuck(dev.codec, mem.src, segs, room, output)
      ensures dev.polled <= old(dev.polled) + polls && dev.idle >= old(dev.idle)
      ensures end.Polling? ==> dev.polled == old(dev.polled) + polls
      ensures end.Polling? ==> polls < 2 * total + (dev.idle - old(dev.idle))
    {
      ghost var polled, idle := dev.polled, dev.idle;
      var left := polls;
      while totalEnq < total && left > 0
        invariant Valid() && dev.polled + left == polled + polls && dev.idle >= idle
        invariant dev.polled - polled <= totalEnq + totalDeq + (dev.idle - idle)
        decreases left
      {
        Send();
        var ok := Receive();
        if !ok {
          return OutOfSpace;
        }
        left := left - 1;
      }
      while totalDeq < total && left > 0
        invariant Valid() && dev.polled + left == polled + polls && dev.idle >= idle
        invariant dev.polled - polled <= totalEnq + totalDeq + (dev.idle - idle)
        decreases left
      {
        var ok := Receive();
        if !ok {
          return OutOfSpace;
        }
        left := left - 1;
      }
      if totalDeq < total {
        return Polling;
      }
      PassOver();
      end := Finished;
    }
  }

  /** One call of main_loop: every result in the output and in its chain, or the first result without
      room, or a device that was idle too often for `polls` polls. */
  method MainLoop(dev: FifoDevice, src: seq<Mbuf>, dst: seq<Mbuf>, pool: Pool, burst: nat, room: nat, polls: nat)
    returns (end: PassEnd, output: seq<Byte>, bufs: seq<Mbuf>)
    requires burst > 0 && |src| == |dst| && Whole(pool.free, 2 * |dst|)
    requires forall m :: m in src ==> Readable(m)
    requires forall m :: m in dst ==> m.segs != [] && Rooms(m.segs, room)
    requires dev.inFlight == [] && dev.accepted == []
    modifies pool, dev
    ensures end.Finished? ==> output == Outputs(dev.codec, src, |src|) && Whole(pool.free, 2 * |dst|) && |bufs| == |dst|
    ensures end.Finished? ==> forall x :: 0 <= x < |src| ==> SetChain(dev.codec, src, bufs[x], SegCounts(dst), room, x)
    ensures end.Finished? ==> dev.inFlight == [] && dev.accepted == From(0, |src|)
    ensures end.OutOfSpace? ==> Stuck(dev.codec, src, SegCounts(dst), room, output)
    ensures dev.polled <= old(dev.polled) + polls && dev.idle >= old(dev.idle)
    ensures end.Polling? ==> dev.polled == old(dev.polled) + polls
    ensures end.Polling? ==> polls < 2 * |src| + (dev.idle - old(dev.idle))
  {
    var ops := new Op[2 * |dst|];
    var mem := new OpMemory(src, dst, 2 * |dst|);
    var pass := new Pass(ops, pool, dev, mem, burst, room);
    end := pass.Run(polls);
    output, bufs := pass.output, mem.dst;
  }
}
