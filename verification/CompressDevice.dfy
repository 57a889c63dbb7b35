/** The compression device as the verify test sees it: a first-in first-out queue that takes any part
    of a burst, finishes operations when it likes, and writes the result of an operation over its
    destination chain when it fits. */
module CompressDevice {
  import opened BurstDevice
  import opened CompressBuffers

  type Codec = seq<Byte> -> seq<Byte>

  /** rte_comp_op: source and destination are both buffer number `buf`. */
  datatype OpRec = OpRec(buf: nat, produced: nat, ok: bool)

  /** A destination chain after the reset that precedes an operation. */
  predicate ReadyChain(m: Mbuf, room: nat) {
    m.segs != [] && Full(m.segs) && Rooms(m.segs, room) && m.pktLen == Capacity(m.segs)
  }

  /** A destination chain that starts with `bytes`, before its lengths are set. */
  predicate FilledChain(m: Mbuf, bytes: seq<Byte>, room: nat) {
    && ReadyChain(m, room) && Readable(m)
    && |bytes| <= m.pktLen && Flatten(m.segs)[..|bytes|] == bytes
  }

  /** A chain whose packet is `bytes`. */
  predicate PacketChain(m: Mbuf, bytes: seq<Byte>, room: nat) {
    m.segs != [] && Rooms(m.segs, room) && Readable(m) && Payload(m) == bytes
  }

  lemma Filled(m: Mbuf, bytes: seq<Byte>, room: nat)
    requires ReadyChain(m, room) && |bytes| <= Capacity(m.segs)
    ensures FilledChain(m.(segs := Fill(m.segs, bytes)), bytes, room) && |Fill(m.segs, bytes)| == |m.segs|
  {
    FillShape(m.segs, bytes);
    FillRooms(m.segs, bytes, room);
    FillThenRead(m.segs, bytes);
    FullLength(Fill(m.segs, bytes));
  }

  lemma Trimmed(m: Mbuf, bytes: seq<Byte>, room: nat)
    requires FilledChain(m, bytes, room)
    ensures PacketChain(Mbuf(Trim(m.segs, |bytes|, room), |bytes|), bytes, room)
    ensures |Trim(m.segs, |bytes|, room)| == |m.segs|
  {
    TrimShape(m.segs, |bytes|, room);
    TrimThenRead(m.segs, |bytes|, room);
  }

  /** Operations `ids` belong to consecutive buffers, from `first` on. */
  predicate Numbered(rec: seq<OpRec>, ids: seq<Op>, first: nat) {
    forall j :: 0 <= j < |ids| ==> ids[j] < |rec| && rec[ids[j]].buf == first + j
  }

  /** n consecutive numbers from `first` on. */
  function From(first: nat, n: nat): seq<nat> { seq(n, i => first + i) }

  /** The memory the device works on: operation objects, source and destination chains. */
  class OpMemory {
    const src: seq<Mbuf>
    var rec: seq<OpRec>
    var dst: seq<Mbuf>

    constructor (src: seq<Mbuf>, dst: seq<Mbuf>, ops: nat)
      ensures this.src == src && this.dst == dst && |rec| == ops
    {
      this.src, this.dst := src, dst;
      rec := seq(ops, _ => OpRec(0, 0, false));
    }
  }

  /** What the device makes of source chain x. */
  function Result(codec: Codec, src: seq<Mbuf>, x: nat): seq<Byte>
    requires x < |src| && Readable(src[x])
  {
    codec(Payload(src[x]))
  }

  /** Operation `r` on chain x reports `bytes`: done if they fit, out of space if not. */
  predicate Finished(r: OpRec, before: Mbuf, after: Mbuf, bytes: seq<Byte>) {
    && (r.ok <==> |bytes| <= Capacity(before.segs))
    && (r.ok ==> r.produced == |bytes| && after == before.(segs := Fill(before.segs, bytes)))
  }

  /** Operations keep the buffers they were attached to. */
  predicate SameBufs(rec: seq<OpRec>, rec': seq<OpRec>) {
    |rec'| == |rec| && forall id :: 0 <= id < |rec| ==> rec'[id].buf == rec[id].buf
  }

  /** Only chains from lo to hi were written. */
  predicate SameOutside(dst: seq<Mbuf>, dst': seq<Mbuf>, lo: nat, hi: nat) {
    |dst'| == |dst| && forall x :: 0 <= x < |dst| && !(lo <= x < hi) ==> dst'[x] == dst[x]
  }

  /** Operations `ids` finished chains first, first + 1, .. */
  predicate AllFinished(codec: Codec, src: seq<Mbuf>, dst: seq<Mbuf>, dst': seq<Mbuf>, rec: seq<OpRec>, ids: seq<Op>, first: nat)
    requires first + |ids| <= |src| == |dst| == |dst'| && forall m :: m in src ==> Readable(m)
  {
    forall j :: 0 <= j < |ids| ==>
      ids[j] < |rec| && Finished(rec[ids[j]], dst[first + j], dst'[first + j], Result(codec, src, first + j))
  }

  class FifoDevice {
    const codec: Codec
    var inFlight: seq<Op>
    /** The buffer numbers of all operations ever accepted, in order. */
    ghost var accepted: seq<nat>
    /** How often it was polled for finished operations, and how many calls of either kind asked for
        something and moved nothing. */
    ghost var polled: nat
    ghost var idle: nat

    constructor (codec: Codec)
      ensures this.codec == codec && inFlight == [] && accepted == [] && polled == idle == 0
    {
      this.codec := codec;
      inFlight, accepted := [], [];
      polled, idle := 0, 0;
    }

    method EnqueueBurst(mem: OpMemory, ops: array<Op>, n: nat, ghost first: nat) returns (taken: nat)
      requires n <= ops.Length && Numbered(mem.rec, ops[..n], first)
      modifies this
      ensures taken <= n && inFlight == old(inFlight) + ops[..taken]
      ensures accepted == old(accepted) + From(first, taken)
      ensures polled == old(polled) && idle == old(idle) + (if taken == 0 < n then 1 else 0)
    {
      var wanted: int := *;
      taken := if 0 <= wanted <= n then wanted else n;
      inFlight := inFlight + ops[..taken];
      accepted := accepted + From(first, taken);
      idle := idle + if taken == 0 < n then 1 else 0;
    }

    /** Hands back up to n finished operations, oldest first, in ops[at..]. */
    method DequeueBurst(mem: OpMemory, ops: array<Op>, at: nat, n: nat, ghost first: nat) returns (got: nat)
      requires at + Min(n, |inFlight|) <= ops.Length
      requires Numbered(mem.rec, inFlight, first) && first + |inFlight| <= |mem.src| == |mem.dst|
      requires forall m :: m in mem.src ==> Readable(m)
      modifies this`inFlight, this`polled, this`idle, ops, mem
      ensures got <= n && got <= |old(inFlight)| && at + got <= ops.Length
      ensures polled == old(polled) + 1 && idle == old(idle) + (if got == 0 < n then 1 else 0)
      ensures ops[at..at + got] == old(inFlight)[..got] && inFlight == old(inFlight)[got..]
      ensures ops[..at] == old(ops[..at])
      ensures SameBufs(old(mem.rec), mem.rec) && SameOutside(old(mem.dst), mem.dst, first, first + got)
      ensures AllFinished(codec, mem.src, old(mem.dst), mem.dst, mem.rec, old(inFlight)[..got], first)
    {
      var ready: int := *;
      got := if 0 <= ready <= Min(n, |inFlight|) then ready else Min(n, |inFlight|);
      ghost var below := ops[..at];
      forall i | 0 <= i < got {
        ops[at + i] := inFlight[i];
      }
      assert ops[..at] == below;
      assert ops[at..at + got] == inFlight[..got];
      Work(mem, got, first);
      inFlight := inFlight[got..];
      polled, idle := polled + 1, idle + if got == 0 < n then 1 else 0;
    }

    /** The device finishes its oldest `got` operations. */
    method Work(mem: OpMemory, got: nat, ghost first: nat)
      requires got <= |inFlight|
      requires Numbered(mem.rec, inFlight, first) && first + |inFlight| <= |mem.src| == |mem.dst|
      requires forall m :: m in mem.src ==> Readable(m)
      modifies mem
      ensures SameBufs(old(mem.rec), mem.rec) && SameOutside(old(mem.dst), mem.dst, first, first + got)
      ensures AllFinished(codec, mem.src, old(mem.dst), mem.dst, mem.rec, inFlight[..got], first)
    {
      var i := 0;
      while i < got
        invariant i <= got
        invariant SameBufs(old(mem.rec), mem.rec) && SameOutside(old(mem.dst), mem.dst, first, first + i)
        invariant AllFinished(codec, mem.src, old(mem.dst), mem.dst, mem.rec, inFlight[..i], first)
      {
        assert inFlight[i] < |old(mem.rec)| && old(mem.rec)[inFlight[i]].buf == first + i;
        forall j | 0 <= j < i ensures inFlight[j] != inFlight[i] {
          assert old(mem.rec)[inFlight[j]].buf == first + j;
        }
        ghost var rec, dst := mem.rec, mem.dst;
        WorkOne(mem, inFlight[i]);
        NextFinished(codec, mem.src, old(mem.dst), dst, mem.dst, rec, mem.rec, inFlight[..i], inFlight[i], first);
        assert inFlight[..i + 1] == inFlight[..i] + [inFlight[i]];
        i := i + 1;
      }
    }

    /** The device finishes one operation. */
    method WorkOne(mem: OpMemory, id: Op)
      requires id < |mem.rec| && mem.rec[id].buf < |mem.src| == |mem.dst| && Readable(mem.src[mem.rec[id].buf])
      modifies mem
      ensures SameBufs(old(mem.rec), mem.rec) && mem.rec == old(mem.rec)[id := mem.rec[id]]
      ensures var x := old(mem.rec)[id].buf;
        && SameOutside(old(mem.dst), mem.dst, x, x + 1)
        && Finished(mem.rec[id], old(mem.dst)[x], mem.dst[x], Result(codec, mem.src, x))
    {
      var x := mem.rec[id].buf;
      var bytes := codec(Payload(mem.src[x]));
      if |bytes| <= Capacity(mem.dst[x].segs) {
        mem.rec := mem.rec[id := OpRec(x, |bytes|, true)];
        mem.dst := mem.dst[x := mem.dst[x].(segs := Fill(mem.dst[x].segs, bytes))];
      } else {
        mem.rec := mem.rec[id := OpRec(x, 0, false)];
      }
    }
  }

  lemma NextFinished(codec: Codec, src: seq<Mbuf>, dst: seq<Mbuf>, now: seq<Mbuf>, next: seq<Mbuf>, rec: seq<OpRec>,
                     rec': seq<OpRec>, ids: seq<Op>, id: Op, first: nat)
    requires first + |ids| < |src| == |dst| == |now| && (forall m :: m in src ==> Readable(m))
    requires AllFinished(codec, src, dst, now, rec, ids, first) && id !in ids && id < |rec|
    requires SameOutside(now, next, first + |ids|, first + |ids| + 1) && now[first + |ids|] == dst[first + |ids|]
    requires |rec'| == |rec| && rec' == rec[id := rec'[id]]
    requires Finished(rec'[id], dst[first + |ids|], next[first + |ids|], Result(codec, src, first + |ids|))
    ensures AllFinished(codec, src, dst, next, rec', ids + [id], first)
  {
  }
}
