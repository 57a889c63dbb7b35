/** Sizes and segmentation: find_buf_size, comp_perf_allocate_memory and prepare_bufs of
    app/test-compress-perf/comp_perf_test_common.c, when the test compresses. */
module CompressSegments {
  import opened BurstDevice
  import opened CompressBuffers

  const MIN_COMPRESSED_BUF_SIZE: nat := 8
  const BUF_SIZE_LIMIT: nat := 65536

  predicate IsPowerOfTwo(i: nat) {
    i == 1 || (i > 1 && i % 2 == 0 && IsPowerOfTwo(i / 2))
  }

  /** The size of an output segment: eight for no input, the smallest power of two above a small
      input, 11/10 of a large one. */
  predicate IsBufSize(inputSize: nat, r: nat) {
    && (inputSize == 0 ==> r == MIN_COMPRESSED_BUF_SIZE)
    && (0 < inputSize < BUF_SIZE_LIMIT / 2 ==> IsPowerOfTwo(r) && inputSize < r <= 2 * inputSize)
    && (inputSize >= BUF_SIZE_LIMIT / 2 ==> r == inputSize * 11 / 10)
  }

  /** The smallest power of two above the input size, or 11/10 of it once that power exceeds a
      16-bit size. */
  method FindBufSize(inputSize: nat) returns (r: nat)
    requires inputSize < BUF_SIZE_LIMIT
    ensures IsBufSize(inputSize, r) && r > inputSize
  {
    var size := if inputSize == 0 then MIN_COMPRESSED_BUF_SIZE else inputSize * 2;
    var i := BUF_SIZE_LIMIT;
    LimitIsPower();
    TopBit(size, i);
    while (size / i) % 2 == 0
      invariant i > 1 && IsPowerOfTwo(i) && 2 <= size < 2 * i && i <= BUF_SIZE_LIMIT
      invariant (size / i) % 2 == 0 <==> size < i
      decreases i
    {
      i := i / 2;
      TopBit(size, i);
    }
    r := if i > BUF_SIZE_LIMIT / 2 then inputSize * 11 / 10 else i;
    if i < BUF_SIZE_LIMIT {
      HalfLimit(i);
    }
    if inputSize == 0 {
      EightIsPower(i);
    }
  }

  /** Below 2 * i, bit i is set exactly from i on. */
  lemma TopBit(size: nat, i: nat)
    requires 0 < i && size < 2 * i
    ensures (size / i) % 2 == 0 <==> size < i
  {
    if size < i {
      assert size / i == 0;
    } else {
      assert size / i == 1;
    }
  }

  lemma LimitIsPower()
    ensures IsPowerOfTwo(BUF_SIZE_LIMIT)
  {
    assert IsPowerOfTwo(4) && IsPowerOfTwo(16);
    assert IsPowerOfTwo(64) && IsPowerOfTwo(256);
    assert IsPowerOfTwo(1024) && IsPowerOfTwo(4096);
    assert IsPowerOfTwo(16384);
  }

  lemma HalfLimit(i: nat)
    requires IsPowerOfTwo(i) && i < BUF_SIZE_LIMIT
    ensures i <= BUF_SIZE_LIMIT / 2
  {
    LimitIsPower();
    PowersApart(i, BUF_SIZE_LIMIT);
  }

  lemma EightIsPower(i: nat)
    requires IsPowerOfTwo(i) && 8 < 2 * i && i <= 8
    ensures i == 8
  {
    assert i != 5 && i != 6 && i != 7;
  }

  /** No power of two lies strictly between another and its double. */
  lemma {:induction false} PowersApart(i: nat, j: nat)
    requires IsPowerOfTwo(i) && IsPowerOfTwo(j) && i < j
    ensures 2 * i <= j
  {
    if i > 1 {
      PowersApart(i / 2, j / 2);
    }
  }

  // ---------- segmentation ----------

  function DivCeil(a: nat, b: nat): nat
    requires b > 0
  {
    a / b + (if a % b != 0 then 1 else 0)
  }

  lemma DivCeilBounds(a: nat, b: nat)
    requires b > 0
    ensures a <= DivCeil(a, b) * b
    ensures a > 0 ==> DivCeil(a, b) > 0 && (DivCeil(a, b) - 1) * b < a
  {
    var q := a / b;
    assert a == q * b + a % b;
    assert (q + 1) * b == q * b + b;
    assert (q - 1) * b == q * b - b;
  }

  lemma TimesOrder(x: int, y: int, b: nat)
    requires b > 0
    ensures x * b < y * b ==> x < y
    ensures x <= y ==> x * b <= y * b
  {
    if x >= y {
      assert (x - y) * b >= 0;
    } else {
      assert (y - x) * b >= 0;
    }
  }

  /** k segments of `size` bytes reach position `pos` of n bytes of data. */
  predicate At(n: nat, size: nat, k: nat, pos: nat) {
    pos <= n && (pos < n ==> pos == k * size) && (pos == n ==> n <= k * size && (k > 0 ==> (k - 1) * size < n))
  }

  lemma AtNext(n: nat, size: nat, k: nat, pos: nat)
    requires size > 0 && At(n, size, k, pos) && pos < n
    ensures At(n, size, k + 1, pos + Min(n - pos, size)) && k < DivCeil(n, size)
  {
    AtStep(n, size, k);
    DivCeilBounds(n, size);
    TimesOrder(k, DivCeil(n, size), size);
  }

  lemma AtStep(n: nat, size: nat, k: nat)
    requires size > 0 && k * size < n
    ensures At(n, size, k + 1, k * size + Min(n - k * size, size))
  {
    var m := k * size;
    assert (k + 1) * size == m + size;
  }

  /** The data ends after exactly the ceiling of n / size segments. */
  lemma AtEnd(n: nat, size: nat, k: nat)
    requires size > 0 && n > 0 && At(n, size, k, n)
    ensures k == DivCeil(n, size)
  {
    DivCeilBounds(n, size);
    assert k > 0;
    TimesOrder(k - 1, DivCeil(n, size), size);
    TimesOrder(DivCeil(n, size) - 1, k, size);
  }

  /** Segments used by some chains. */
  function SegSum(bufs: seq<Mbuf>): nat {
    if bufs == [] then 0 else SegSum(bufs[..|bufs| - 1]) + |bufs[|bufs| - 1].segs|
  }

  /** All chains one after another. */
  function Join(bufs: seq<Mbuf>): seq<Byte>
    requires forall m :: m in bufs ==> WellFormed(m.segs)
  {
    if bufs == [] then [] else Join(bufs[..|bufs| - 1]) + Flatten(bufs[|bufs| - 1].segs)
  }

  lemma {:induction false} FlattenSnoc(segs: seq<Seg>, s: Seg)
    requires WellFormed(segs) && s.len <= |s.store|
    ensures WellFormed(segs + [s]) && Flatten(segs + [s]) == Flatten(segs) + s.store[..s.len]
  {
    if segs == [] {
      assert segs + [s] == [s];
    } else {
      FlattenSnoc(segs[1..], s);
      assert (segs + [s])[1..] == segs[1..] + [s];
    }
  }

  /** An input chain: all segments but the last full of data, the last not empty. */
  predicate InputChain(m: Mbuf, size: nat, maxSegs: nat) {
    && 1 <= |m.segs| <= maxSegs
    && Rooms(m.segs, size) && WellFormed(m.segs)
    && m.pktLen == |Flatten(m.segs)|
    && (forall j :: 0 <= j < |m.segs| - 1 ==> m.segs[j].len == size)
    && m.segs[|m.segs| - 1].len > 0
  }

  /** An input chain that is not the last: the maximum number of segments, all full. */
  predicate WholeChain(m: Mbuf, size: nat, maxSegs: nat) {
    |m.segs| == maxSegs && Full(m.segs)
  }

  /** An output chain: as many segments as its input chain, of the output size. */
  predicate OutputChain(m: Mbuf, input: Mbuf, size: nat) {
    |m.segs| == |input.segs| && Rooms(m.segs, size) && Full(m.segs) && m.pktLen == |m.segs| * size
  }

  class BufferMemory {
    const data: seq<Byte>
    const segSz: nat
    const outSegSz: nat
    const maxSglSegs: nat
    const totalSegs: nat
    const totalBufs: nat
    /** Mbufs left in each pool; total_segs of them to begin with. */
    var decompPool: nat
    var compPool: nat
    var remaining: nat
    var decompBufs: seq<Mbuf>
    var compBufs: seq<Mbuf>

    predicate Sizes() {
      && segSz > 0 && maxSglSegs > 0 && outSegSz > segSz
      && totalSegs == DivCeil(|data|, segSz) && totalBufs == DivCeil(totalSegs, maxSglSegs)
    }

    /** comp_perf_allocate_memory, up to its library calls. */
    constructor AllocateMemory(data: seq<Byte>, segSz: nat, maxSglSegs: nat, outSegSz: nat)
      requires 0 < segSz < outSegSz && maxSglSegs > 0
      ensures Sizes() && this.data == data && this.segSz == segSz && this.maxSglSegs == maxSglSegs
      ensures this.outSegSz == outSegSz
      ensures decompPool == compPool == totalSegs && remaining == |data| && decompBufs == compBufs == []
    {
      this.data, this.segSz, this.outSegSz, this.maxSglSegs := data, segSz, outSegSz, maxSglSegs;
      totalSegs := DivCeil(|data|, segSz);
      totalBufs := DivCeil(DivCeil(|data|, segSz), maxSglSegs);
      decompPool, compPool := DivCeil(|data|, segSz), DivCeil(|data|, segSz);
      remaining := |data|;
      decompBufs, compBufs := [], [];
    }

    function Pos(): nat
      requires remaining <= |data|
      reads this
    {
      |data| - remaining
    }

    /** The segments handed out so far account for the data copied so far. */
    predicate Progress()
      reads this
    {
      Sizes() && remaining <= |data| && decompPool <= totalSegs && At(|data|, segSz, totalSegs - decompPool, Pos())
    }

    /** One segment of input: allocate, append, copy. */
    method TakeSegment() returns (ok: bool, s: Seg)
      requires Progress() && remaining > 0
      modifies this`decompPool, this`remaining
      ensures ok && Progress() && decompPool == old(decompPool) - 1
      ensures |s.store| == segSz && s.len == Min(old(remaining), segSz) && remaining == old(remaining) - s.len
      ensures s.store[..s.len] == data[old(Pos())..Pos()]
    {
      ok := decompPool > 0;
      AtNext(|data|, segSz, totalSegs - decompPool, Pos());
      if !ok {
        assert false;
      }
      decompPool := decompPool - 1;
      var size := Min(remaining, segSz);
      var bytes := data[Pos()..Pos() + size];
      s := Seg(bytes + seq(segSz - size, _ => 0), size);
      remaining := remaining - size;
    }

    /** The first inner loop of prepare_bufs: chain segments until the chain or the data is full. */
    method BuildInputChain() returns (m: Mbuf)
      requires Progress() && remaining > 0
      modifies this`decompPool, this`remaining
      ensures Progress() && remaining <= old(remaining)
      ensures InputChain(m, segSz, maxSglSegs) && decompPool == old(decompPool) - |m.segs|
      ensures Flatten(m.segs) == data[old(Pos())..Pos()]
      ensures remaining > 0 ==> WholeChain(m, segSz, maxSglSegs)
    {
      var ok, s := TakeSegment();
      var segs, pktLen := [s], s.len;
      ghost var start := old(Pos());
      FlattenSnoc([], s);
      assert [] + [s] == segs;
      while |segs| < maxSglSegs && remaining > 0
        invariant Progress() && 1 <= |segs| <= maxSglSegs && remaining <= old(remaining)
        invariant decompPool == old(decompPool) - |segs|
        invariant Rooms(segs, segSz) && WellFormed(segs)
        invariant Flatten(segs) == data[start..Pos()] && pktLen == Pos() - start
        invariant forall j :: 0 <= j < |segs| - 1 ==> segs[j].len == segSz
        invariant segs[|segs| - 1].len > 0 && (remaining > 0 ==> segs[|segs| - 1].len == segSz)
        decreases remaining
      {
        ghost var before := Pos();
        ok, s := TakeSegment();
        FlattenSnoc(segs, s);
        assert data[start..Pos()] == data[start..before] + data[before..Pos()];
        segs, pktLen := segs + [s], pktLen + s.len;
      }
      m := Mbuf(segs, pktLen);
    }

    /** The second inner loop: as many output segments as the input chain has. */
    method BuildOutputChain(segsPerMbuf: nat) returns (m: Mbuf)
      requires 1 <= segsPerMbuf <= compPool && |data| > 0
      modifies this`compPool
      ensures |m.segs| == segsPerMbuf && Rooms(m.segs, outSegSz) && Full(m.segs)
      ensures m.pktLen == segsPerMbuf * outSegSz && compPool == old(compPool) - segsPerMbuf
    {
      var blank := Seg(seq(outSegSz, _ => 0), outSegSz);
      compPool := compPool - 1;
      m := Mbuf([blank], outSegSz);
      var j := 1;
      while j < segsPerMbuf && |data| > 0
        invariant 1 <= j <= segsPerMbuf && |m.segs| == j && compPool == old(compPool) - j
        invariant Rooms(m.segs, outSegSz) && Full(m.segs) && m.pktLen == j * outSegSz
      {
        compPool := compPool - 1;
        assert (j + 1) * outSegSz == j * outSegSz + outSegSz;
        m := Mbuf(m.segs + [blank], m.pktLen + outSegSz);
        j := j + 1;
      }
    }

    /** What the tables hold after some chains were built. */
    predicate Tables()
      reads this
    {
      && Progress() && |decompBufs| == |compBufs| && compPool == decompPool
      && SegSum(compBufs) == totalSegs - compPool
      && (forall i :: 0 <= i < |decompBufs| ==>
            InputChain(decompBufs[i], segSz, maxSglSegs) && OutputChain(compBufs[i], decompBufs[i], outSegSz))
      && (forall i :: 0 <= i < |decompBufs| && (i < |decompBufs| - 1 || remaining > 0) ==>
            WholeChain(decompBufs[i], segSz, maxSglSegs))
    }

    /** The chains built so far hold the data copied so far. */
    predicate Holds()
      requires remaining <= |data|
      reads this
    {
      (forall m :: m in decompBufs ==> WellFormed(m.segs)) && Join(decompBufs) == data[..Pos()]
    }

    /** One round of the outer loop. */
    method AddBuffer()
      requires Tables() && Holds() && remaining > 0
      modifies this`decompPool, this`compPool, this`remaining, this`decompBufs, this`compBufs
      ensures Tables() && Holds() && |decompBufs| == old(|decompBufs|) + 1 && remaining <= old(remaining)
      ensures decompPool < old(decompPool) <= decompPool + maxSglSegs
      ensures remaining > 0 ==> old(decompPool) == decompPool + maxSglSegs
    {
      ghost var pos, built := Pos(), decompBufs;
      var input := BuildInputChain();
      var output := BuildOutputChain(|input.segs|);
      assert data[..Pos()] == data[..pos] + data[pos..Pos()];
      decompBufs := decompBufs + [input];
      compBufs := compBufs + [output];
      assert decompBufs[..|decompBufs| - 1] == built;
    }

    /** Lossless and exactly sized: the chains hold the input in order, every chain but the last is
        whole, output chains match input chains, nothing remains after total_bufs chains, no
        allocation fails, and both pools of total_segs mbufs are drawn down to nothing. */
    method PrepareBufs()
      requires Sizes() && decompPool == compPool == totalSegs && remaining == |data|
      requires decompBufs == compBufs == []
      modifies this`decompPool, this`compPool, this`remaining, this`decompBufs, this`compBufs
      ensures Tables() && Holds() && |decompBufs| == totalBufs
      ensures Join(decompBufs) == data
      ensures remaining == 0 && decompPool == compPool == 0
    {
      var i := 0;
      while i < totalBufs
        invariant i <= totalBufs && |decompBufs| == i && Tables() && Holds()
        invariant totalSegs - decompPool <= i * maxSglSegs
        invariant remaining > 0 ==> totalSegs - decompPool == i * maxSglSegs
      {
        BufferNeeded(|data|, segSz, maxSglSegs, totalSegs - decompPool, Pos(), i);
        assert (i + 1) * maxSglSegs == i * maxSglSegs + maxSglSegs;
        AddBuffer();
        i := i + 1;
      }
      BuffersDone(|data|, segSz, maxSglSegs, totalSegs - decompPool, Pos());
      assert data[..Pos()] == data;
    }
  }

  /** While chains are missing, data is left for them. */
  lemma BufferNeeded(n: nat, size: nat, maxSegs: nat, k: nat, pos: nat, i: nat)
    requires size > 0 && maxSegs > 0 && At(n, size, k, pos) && k <= i * maxSegs
    requires i < DivCeil(DivCeil(n, size), maxSegs)
    ensures pos < n
  {
    var t := DivCeil(n, size);
    DivCeilBounds(n, size);
    DivCeilBounds(t, maxSegs);
    TimesOrder(i, DivCeil(t, maxSegs) - 1, maxSegs);
    if pos == n {
      AtEnd(n, size, k);
      assert false;
    }
  }

  /** After all chains, the data is used up and every segment was handed out. */
  lemma BuffersDone(n: nat, size: nat, maxSegs: nat, k: nat, pos: nat)
    requires size > 0 && maxSegs > 0 && At(n, size, k, pos)
    requires k <= DivCeil(DivCeil(n, size), maxSegs) * maxSegs
    requires pos < n ==> k == DivCeil(DivCeil(n, size), maxSegs) * maxSegs
    ensures pos == n && k == DivCeil(n, size)
  {
    var t := DivCeil(n, size);
    DivCeilBounds(n, size);
    DivCeilBounds(t, maxSegs);
    TimesOrder(t, k, size);
    if n > 0 {
      AtEnd(n, size, k);
    } else {
      assert t == 0 && DivCeil(t, maxSegs) * maxSegs == 0;
    }
  }
}
