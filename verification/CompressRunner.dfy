/** The whole verify test (cperf_verify_test_constructor and cperf_verify_test_runner of
    app/test-compress-perf/comp_perf_test_verify.c): segment, compress, decompress, compare. */
module CompressRunner {
  import opened BurstDevice
  import opened CompressBuffers
  import opened CompressSegments
  import opened CompressDevice
  import V = CompressVerify

  datatype Verdict = Success | Failure | Unfinished

  /** The input cut into pieces of `size` bytes, the last one possibly shorter. */
  function Chunks(data: seq<Byte>, size: nat): seq<seq<Byte>>
    requires size > 0
  {
    if data == [] then [] else [data[..Min(size, |data|)]] + Chunks(data[Min(size, |data|)..], size)
  }

  /** What the user of the benchmark can check beforehand: each compressed chunk fits into as many
      output segments as the chunk has input segments. */
  predicate Roomy(comp: Codec, data: seq<Byte>, segSz: nat, maxSegs: nat, outSegSz: nat)
    requires segSz * maxSegs > 0 && segSz > 0
  {
    var chunks := Chunks(data, segSz * maxSegs);
    forall i :: 0 <= i < |chunks| ==> |comp(chunks[i])| <= DivCeil(|chunks[i]|, segSz) * outSegSz
  }

  /** All chunks compressed, one after another. */
  function Packed(comp: Codec, chunks: seq<seq<Byte>>): seq<Byte> {
    if chunks == [] then [] else Packed(comp, chunks[..|chunks| - 1]) + comp(chunks[|chunks| - 1])
  }

  // ---------- the chains carry the chunks ----------

  lemma {:induction false} ChainLength(segs: seq<Seg>, size: nat)
    requires segs != [] && WellFormed(segs)
    requires forall j :: 0 <= j < |segs| - 1 ==> segs[j].len == size
    ensures |Flatten(segs)| == (|segs| - 1) * size + segs[|segs| - 1].len
  {
    var rest := segs[1..];
    assert segs[0] in segs;
    assert |Flatten(segs)| == segs[0].len + |Flatten(rest)|;
    if rest != [] {
      ChainLength(rest, size);
      assert rest[|rest| - 1] == segs[|segs| - 1];
      OneMore(|rest|, size);
    }
  }

  lemma OneMore(k: nat, size: nat)
    requires k > 0
    ensures k * size == (k - 1) * size + size
  {
  }

  /** The number of segments of an input chain is determined by its length. */
  lemma SegsByLength(m: Mbuf, size: nat, maxSegs: nat)
    requires size > 0 && InputChain(m, size, maxSegs)
    ensures |m.segs| == DivCeil(m.pktLen, size) && 0 < m.pktLen <= size * maxSegs
    ensures WholeChain(m, size, maxSegs) ==> m.pktLen == size * maxSegs
  {
    var k, last := |m.segs|, m.segs[|m.segs| - 1];
    assert last in m.segs;
    ChainLength(m.segs, size);
    assert k * size == (k - 1) * size + size;
    DivCeilBounds(m.pktLen, size);
    TimesOrder(k - 1, DivCeil(m.pktLen, size), size);
    TimesOrder(DivCeil(m.pktLen, size) - 1, k, size);
    TimesOrder(k, maxSegs, size);
  }

  function Parts(bufs: seq<Mbuf>): seq<seq<Byte>>
    requires forall m :: m in bufs ==> WellFormed(m.segs)
  {
    seq(|bufs|, i requires 0 <= i < |bufs| => Flatten(bufs[i].segs))
  }

  function Concat(parts: seq<seq<Byte>>): seq<Byte> {
    if parts == [] then [] else Concat(parts[..|parts| - 1]) + parts[|parts| - 1]
  }

  lemma {:induction false} ConcatCons(parts: seq<seq<Byte>>)
    requires parts != []
    ensures Concat(parts) == parts[0] + Concat(parts[1..])
  {
    var front, tail := parts[..|parts| - 1], parts[1..];
    if tail == [] {
      assert front == [];
    } else {
      ConcatCons(front);
      assert tail[..|tail| - 1] == front[1..];
    }
  }

  lemma {:induction false} JoinIsConcat(bufs: seq<Mbuf>)
    requires forall m :: m in bufs ==> WellFormed(m.segs)
    ensures Join(bufs) == Concat(Parts(bufs))
  {
    if bufs != [] {
      var front := bufs[..|bufs| - 1];
      JoinIsConcat(front);
      assert Parts(bufs)[..|bufs| - 1] == Parts(front);
    }
  }

  lemma JoinCons(bufs: seq<Mbuf>)
    requires bufs != [] && forall m :: m in bufs ==> WellFormed(m.segs)
    ensures Join(bufs) == Flatten(bufs[0].segs) + Join(bufs[1..])
  {
    JoinIsConcat(bufs);
    JoinIsConcat(bufs[1..]);
    ConcatCons(Parts(bufs));
    assert Parts(bufs)[1..] == Parts(bufs[1..]);
  }

  /** Chain m carries a chunk, in as few segments as possible. */
  predicate Carries(m: Mbuf, chunk: seq<Byte>, size: nat)
    requires size > 0
  {
    Readable(m) && Payload(m) == chunk && |m.segs| == DivCeil(|chunk|, size)
  }

  predicate AllCarry(bufs: seq<Mbuf>, chunks: seq<seq<Byte>>, size: nat)
    requires size > 0
  {
    |chunks| == |bufs| && forall i :: 0 <= i < |bufs| ==> Carries(bufs[i], chunks[i], size)
  }

  lemma AllCarryCons(bufs: seq<Mbuf>, chunk: seq<Byte>, chunks: seq<seq<Byte>>, size: nat)
    requires size > 0 && bufs != [] && Carries(bufs[0], chunk, size) && AllCarry(bufs[1..], chunks, size)
    ensures AllCarry(bufs, [chunk] + chunks, size)
  {
    forall i | 0 < i < |bufs| ensures Carries(bufs[i], ([chunk] + chunks)[i], size) {
      assert bufs[i] == bufs[1..][i - 1];
    }
  }

  lemma {:induction false} ChainsAreChunks(bufs: seq<Mbuf>, data: seq<Byte>, size: nat, maxSegs: nat)
    requires size > 0 && maxSegs > 0 && size * maxSegs > 0
    requires forall i :: 0 <= i < |bufs| ==> InputChain(bufs[i], size, maxSegs)
    requires forall i :: 0 <= i < |bufs| - 1 ==> WholeChain(bufs[i], size, maxSegs)
    requires (forall m :: m in bufs ==> WellFormed(m.segs)) && Join(bufs) == data
    ensures AllCarry(bufs, Chunks(data, size * maxSegs), size)
  {
    if bufs != [] {
      JoinCons(bufs);
      var rest := Join(bufs[1..]);
      FirstChunk(bufs, size, maxSegs, rest);
      ChainsAreChunks(bufs[1..], rest, size, maxSegs);
      AllCarryCons(bufs, Flatten(bufs[0].segs), Chunks(rest, size * maxSegs), size);
    }
  }

  lemma FirstChunk(bufs: seq<Mbuf>, size: nat, maxSegs: nat, rest: seq<Byte>)
    requires size > 0 && maxSegs > 0 && size * maxSegs > 0 && bufs != []
    requires InputChain(bufs[0], size, maxSegs)
    requires |bufs| > 1 ==> WholeChain(bufs[0], size, maxSegs)
    requires |bufs| == 1 ==> rest == []
    ensures var data, c := Flatten(bufs[0].segs) + rest, size * maxSegs;
      && Chunks(data, c) == [Flatten(bufs[0].segs)] + Chunks(rest, c)
      && Carries(bufs[0], Flatten(bufs[0].segs), size)
  {
    SegsByLength(bufs[0], size, maxSegs);
    var first := Flatten(bufs[0].segs);
    assert (first + rest)[..|first|] == first && (first + rest)[|first|..] == rest;
  }

  // ---------- the second pass ----------

  /** A codec pair undoes itself, pass by pass: decompressing the chains the first pass left gives
      the chains it read. */
  lemma {:induction false} OutputsJoin(decomp: Codec, comp: Codec, src: seq<Mbuf>, mid: seq<Mbuf>, n: nat)
    requires n <= |src| == |mid| && (forall m :: m in src ==> WellFormed(m.segs))
    requires forall m :: m in mid ==> Readable(m)
    requires forall x :: 0 <= x < |src| ==> Readable(src[x]) && src[x].pktLen == |Flatten(src[x].segs)|
    requires forall x :: 0 <= x < |src| ==> Payload(mid[x]) == comp(Payload(src[x]))
    requires forall bytes :: decomp(comp(bytes)) == bytes
    ensures V.Outputs(decomp, mid, n) == Join(src[..n])
  {
    if n > 0 {
      OutputsJoin(decomp, comp, src, mid, n - 1);
      assert src[..n][..n - 1] == src[..n - 1];
      assert Result(decomp, mid, n - 1) == Flatten(src[n - 1].segs);
    }
  }

  /** The output of the compress pass is the compressed chunks. */
  lemma {:induction false} OutputsPacked(comp: Codec, src: seq<Mbuf>, chunks: seq<seq<Byte>>, size: nat, n: nat)
    requires size > 0 && n <= |src| && AllCarry(src, chunks, size) && forall m :: m in src ==> Readable(m)
    ensures V.Outputs(comp, src, n) == Packed(comp, chunks[..n])
  {
    if n > 0 {
      OutputsPacked(comp, src, chunks, size, n - 1);
      assert chunks[..n][..n - 1] == chunks[..n - 1];
      assert Carries(src[n - 1], chunks[n - 1], size);
    }
  }

  /** A pass whose results all fit writes no more than the rooms of its chains together. */
  lemma {:induction false} OutputsBound(codec: Codec, src: seq<Mbuf>, dst: seq<Mbuf>, room: nat, n: nat)
    requires n <= |src| == |dst| && forall m :: m in src ==> Readable(m)
    requires forall x :: 0 <= x < |src| ==> V.Fits(codec, src, V.SegCounts(dst), room, x)
    ensures |V.Outputs(codec, src, n)| <= SegSum(dst[..n]) * room
  {
    if n > 0 {
      OutputsBound(codec, src, dst, room, n - 1);
      assert dst[..n][..n - 1] == dst[..n - 1];
      assert V.Fits(codec, src, V.SegCounts(dst), room, n - 1);
      var a, b := SegSum(dst[..n - 1]), |dst[n - 1].segs|;
      assert (a + b) * room == a * room + b * room;
    }
  }

  // ---------- the runner ----------

  lemma {:induction false} FreshWhole(n: nat, id: Op)
    ensures V.Places(seq(n, i => i), [], [], id) == if id < n then 1 else 0
  {
    var s: seq<Op> := seq(n, i => i);
    if n > 0 {
      FreshWhole(n - 1, id);
      assert s == seq(n - 1, i => i) + [n - 1];
    }
  }

  /** What the constructor leaves behind: input chains with the data, output chains of the same shape. */
  ghost predicate Prepared(inputs: seq<Mbuf>, outputs: seq<Mbuf>, data: seq<Byte>, segSz: nat, maxSegs: nat, outSegSz: nat) {
    && segSz > 0 && maxSegs > 0 && segSz * maxSegs > 0 && |inputs| == |outputs|
    && (forall i :: 0 <= i < |inputs| ==>
          InputChain(inputs[i], segSz, maxSegs) && OutputChain(outputs[i], inputs[i], outSegSz))
    && (forall i :: 0 <= i < |inputs| - 1 ==> WholeChain(inputs[i], segSz, maxSegs))
    && (forall m :: m in inputs ==> WellFormed(m.segs)) && Join(inputs) == data
    && SegSum(outputs) == DivCeil(|data|, segSz)
  }

  /** What a finished compress pass leaves behind. */
  predicate Compressed(comp: Codec, inputs: seq<Mbuf>, outputs: seq<Mbuf>, mid: seq<Mbuf>, outSegSz: nat)
    requires |inputs| == |outputs| && forall m :: m in inputs ==> Readable(m)
  {
    && |mid| == |inputs|
    && forall x :: 0 <= x < |inputs| ==> V.SetChain(comp, inputs, mid[x], V.SegCounts(outputs), outSegSz, x)
  }

  /** The chains of the first pass have room exactly for roomy data. */
  lemma FirstPassFits(inputs: seq<Mbuf>, outputs: seq<Mbuf>, comp: Codec, data: seq<Byte>, segSz: nat, maxSegs: nat, outSegSz: nat)
    requires Prepared(inputs, outputs, data, segSz, maxSegs, outSegSz)
    ensures forall m :: m in inputs ==> Readable(m)
    ensures forall m :: m in outputs ==> m.segs != [] && Rooms(m.segs, outSegSz)
    ensures |Chunks(data, segSz * maxSegs)| == |inputs|
    ensures Roomy(comp, data, segSz, maxSegs, outSegSz) <==>
            forall x :: 0 <= x < |inputs| ==> V.Fits(comp, inputs, V.SegCounts(outputs), outSegSz, x)
  {
    ChainsAreChunks(inputs, data, segSz, maxSegs);
    var chunks, segs := Chunks(data, segSz * maxSegs), V.SegCounts(outputs);
    forall m | m in inputs ensures Readable(m) {
      var i :| 0 <= i < |inputs| && inputs[i] == m;
      assert Carries(inputs[i], chunks[i], segSz);
    }
    forall x | 0 <= x < |inputs|
      ensures V.Fits(comp, inputs, segs, outSegSz, x) <==> |comp(chunks[x])| <= DivCeil(|chunks[x]|, segSz) * outSegSz
    {
      assert Carries(inputs[x], chunks[x], segSz);
      assert OutputChain(outputs[x], inputs[x], outSegSz) && segs[x] == |inputs[x].segs|;
    }
  }

  /** A finished compress pass means that all chunks fitted, and its data stays in its buffer. */
  lemma FirstPassDone(inputs: seq<Mbuf>, outputs: seq<Mbuf>, mid: seq<Mbuf>, comp: Codec, data: seq<Byte>,
                      segSz: nat, maxSegs: nat, outSegSz: nat)
    requires Prepared(inputs, outputs, data, segSz, maxSegs, outSegSz) && forall m :: m in inputs ==> Readable(m)
    requires Compressed(comp, inputs, outputs, mid, outSegSz)
    ensures |V.Outputs(comp, inputs, |inputs|)| <= DivCeil(|data|, segSz) * outSegSz
    ensures Roomy(comp, data, segSz, maxSegs, outSegSz)
    ensures V.Outputs(comp, inputs, |inputs|) == Packed(comp, Chunks(data, segSz * maxSegs))
  {
    var chunks := Chunks(data, segSz * maxSegs);
    ChainsAreChunks(inputs, data, segSz, maxSegs);
    OutputsPacked(comp, inputs, chunks, segSz, |inputs|);
    assert chunks[..|inputs|] == chunks;
    FirstPassFits(inputs, outputs, comp, data, segSz, maxSegs, outSegSz);
    forall x | 0 <= x < |inputs| ensures V.Fits(comp, inputs, V.SegCounts(outputs), outSegSz, x) {
      assert V.SetChain(comp, inputs, mid[x], V.SegCounts(outputs), outSegSz, x);
    }
    OutputsBound(comp, inputs, outputs, outSegSz, |inputs|);
    assert outputs[..|inputs|] == outputs;
  }

  /** Decompressed chunks fit where the chunks came from, and give back the data. */
  lemma SecondPass(inputs: seq<Mbuf>, outputs: seq<Mbuf>, mid: seq<Mbuf>, comp: Codec, decomp: Codec, data: seq<Byte>,
                   segSz: nat, maxSegs: nat, outSegSz: nat)
    requires Prepared(inputs, outputs, data, segSz, maxSegs, outSegSz) && forall m :: m in inputs ==> Readable(m)
    requires Compressed(comp, inputs, outputs, mid, outSegSz)
    requires forall bytes :: decomp(comp(bytes)) == bytes
    ensures forall m :: m in mid ==> Readable(m)
    ensures forall m :: m in inputs ==> m.segs != [] && Rooms(m.segs, segSz)
    ensures forall x :: 0 <= x < |mid| ==> V.Fits(decomp, mid, V.SegCounts(inputs), segSz, x)
    ensures V.Outputs(decomp, mid, |mid|) == data
  {
    Payloads(inputs, outputs, mid, comp, outSegSz);
    forall x | 0 <= x < |mid| ensures V.Fits(decomp, mid, V.SegCounts(inputs), segSz, x) {
      ChainFits(inputs[x], segSz, maxSegs);
    }
    OutputsJoin(decomp, comp, inputs, mid, |inputs|);
    assert inputs[..|inputs|] == inputs;
  }

  lemma Payloads(inputs: seq<Mbuf>, outputs: seq<Mbuf>, mid: seq<Mbuf>, comp: Codec, outSegSz: nat)
    requires |inputs| == |outputs| && forall m :: m in inputs ==> Readable(m)
    requires Compressed(comp, inputs, outputs, mid, outSegSz)
    ensures forall m :: m in mid ==> Readable(m)
    ensures forall x :: 0 <= x < |mid| ==> Readable(inputs[x]) && Readable(mid[x]) && Payload(mid[x]) == comp(Payload(inputs[x]))
  {
    forall x | 0 <= x < |mid|
      ensures Readable(inputs[x]) && Readable(mid[x]) && Payload(mid[x]) == comp(Payload(inputs[x]))
    {
      assert V.SetChain(comp, inputs, mid[x], V.SegCounts(outputs), outSegSz, x);
    }
  }

  lemma ChainFits(m: Mbuf, size: nat, maxSegs: nat)
    requires InputChain(m, size, maxSegs)
    ensures m.pktLen <= |m.segs| * size
  {
    ChainLength(m.segs, size);
    OneMore(|m.segs|, size);
    assert m.segs[|m.segs| - 1] in m.segs;
  }

  /** cperf_verify_test_constructor: sizes and buffers. */
  method Construct(data: seq<Byte>, segSz: nat, maxSegs: nat) returns (outSegSz: nat, inputs: seq<Mbuf>, outputs: seq<Mbuf>)
    requires 0 < segSz < BUF_SIZE_LIMIT && maxSegs > 0 && segSz * maxSegs > 0
    ensures IsBufSize(segSz, outSegSz) && Prepared(inputs, outputs, data, segSz, maxSegs, outSegSz)
  {
    outSegSz := FindBufSize(segSz);
    var bm := new BufferMemory.AllocateMemory(data, segSz, maxSegs, outSegSz);
    bm.PrepareBufs();
    inputs, outputs := bm.decompBufs, bm.compBufs;
  }

  method OperationPool(n: nat) returns (pool: Pool)
    ensures fresh(pool) && V.Whole(pool.free, n)
  {
    pool := new Pool(n);
    forall id: Op ensures V.Places(pool.free, [], [], id) == if id < n then 1 else 0 {
      FreshWhole(n, id);
    }
  }

  /** The verify test of a codec pair: it succeeds exactly when every compressed chunk fits its output
      chain, and then the decompressed data is the input and the compressed data stays in its buffer.
      It is left unfinished only by a pass that polled `polls` times, on a device that was idle in so
      many calls that these polls were not enough. `compDev` and `decompDev` are the device as each of
      the two transforms uses it. */
  method VerifyTest(data: seq<Byte>, segSz: nat, maxSegs: nat, burst: nat, compDev: FifoDevice, decompDev: FifoDevice, polls: nat)
    returns (verdict: Verdict, outSegSz: nat, compressed: seq<Byte>, decompressed: seq<Byte>)
    requires 0 < segSz < BUF_SIZE_LIMIT && maxSegs > 0 && segSz * maxSegs > 0
    requires compDev != decompDev && compDev.inFlight == decompDev.inFlight == []
    requires compDev.accepted == decompDev.accepted == []
    requires forall bytes :: decompDev.codec(compDev.codec(bytes)) == bytes
    modifies compDev, decompDev
    ensures IsBufSize(segSz, outSegSz)
    ensures verdict.Success? ==>
      compDev.accepted == decompDev.accepted == From(0, |Chunks(data, segSz * maxSegs)|)
    ensures verdict.Success? ==> compDev.inFlight == decompDev.inFlight == []
    ensures verdict.Success? ==> compressed == Packed(compDev.codec, Chunks(data, segSz * maxSegs))
    ensures verdict.Success? ==> decompressed == data && |compressed| <= DivCeil(|data|, segSz) * outSegSz
    ensures !verdict.Unfinished? ==>
      (verdict.Success? <==> burst > 0 && Roomy(compDev.codec, data, segSz, maxSegs, outSegSz))
    ensures verdict.Unfinished? ==>
      || (compDev.polled - old(compDev.polled) == polls
          && polls < 2 * |Chunks(data, segSz * maxSegs)| + (compDev.idle - old(compDev.idle)))
      || (decompDev.polled - old(decompDev.polled) == polls
          && polls < 2 * |Chunks(data, segSz * maxSegs)| + (decompDev.idle - old(decompDev.idle)))
  {
    var inputs, outputs;
    outSegSz, inputs, outputs := Construct(data, segSz, maxSegs);
    FirstPassFits(inputs, outputs, compDev.codec, data, segSz, maxSegs, outSegSz);
    compressed, decompressed := [], [];
    if burst == 0 {
      return Failure, outSegSz, compressed, decompressed;
    }
    var pool := OperationPool(2 * |inputs|);
    var end, mid;
    end, compressed, mid := V.MainLoop(compDev, inputs, outputs, pool, burst, outSegSz, polls);
    if !end.Finished? {
      verdict := if end.OutOfSpace? then Failure else Unfinished;
      return;
    }
    FirstPassDone(inputs, outputs, mid, compDev.codec, data, segSz, maxSegs, outSegSz);
    SecondPass(inputs, outputs, mid, compDev.codec, decompDev.codec, data, segSz, maxSegs, outSegSz);
    var last;
    end, decompressed, last := V.MainLoop(decompDev, mid, inputs, pool, burst, segSz, polls);
    verdict :=
      if end.Polling? then Unfinished
      else if end.OutOfSpace? || |decompressed| != |data| || decompressed != data then Failure
      else Success;
  }
}
