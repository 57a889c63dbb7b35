/** Buffers of the compression benchmark: what is read from and written to a chain of mbufs. */
module CompressBuffers {
  import opened BurstDevice

  type Byte = b: int | 0 <= b < 256

  /** One mbuf: its data room and how much of it counts as data. */
  datatype Seg = Seg(store: seq<Byte>, len: nat)

  /** A chain of mbufs with the packet length of its head. */
  datatype Mbuf = Mbuf(segs: seq<Seg>, pktLen: nat)

  predicate WellFormed(segs: seq<Seg>) {
    forall s :: s in segs ==> s.len <= |s.store|
  }

  /** Every segment counts its whole room as data. */
  predicate Full(segs: seq<Seg>) {
    forall s :: s in segs ==> s.len == |s.store|
  }

  /** Every segment has room for `room` bytes. */
  predicate Rooms(segs: seq<Seg>, room: nat) {
    forall s :: s in segs ==> |s.store| == room
  }

  function Capacity(segs: seq<Seg>): nat {
    if segs == [] then 0 else |segs[0].store| + Capacity(segs[1..])
  }

  /** The data of a chain, segment after segment. */
  function Flatten(segs: seq<Seg>): seq<Byte>
    requires WellFormed(segs)
  {
    if segs == [] then [] else segs[0].store[..segs[0].len] + Flatten(segs[1..])
  }

  predicate Readable(m: Mbuf) {
    WellFormed(m.segs) && m.pktLen <= |Flatten(m.segs)|
  }

  /** The packet: the first pktLen bytes of the chain. */
  function Payload(m: Mbuf): seq<Byte>
    requires Readable(m)
  {
    Flatten(m.segs)[..m.pktLen]
  }

  lemma {:induction false} RoomsCapacity(segs: seq<Seg>, room: nat)
    requires Rooms(segs, room)
    ensures Capacity(segs) == |segs| * room
  {
    if segs != [] {
      RoomsCapacity(segs[1..], room);
      assert |segs| * room == room + |segs[1..]| * room;
    }
  }

  lemma {:induction false} FullLength(segs: seq<Seg>)
    requires Full(segs)
    ensures |Flatten(segs)| == Capacity(segs)
  {
    if segs != [] {
      FullLength(segs[1..]);
    }
  }

  // ---------- writing ----------

  /** Writing `data` over the rooms of a chain, front to back. */
  function Fill(segs: seq<Seg>, data: seq<Byte>): seq<Seg> {
    if segs == [] then []
    else
      var n := Min(|segs[0].store|, |data|);
      [segs[0].(store := data[..n] + segs[0].store[n..])] + Fill(segs[1..], data[n..])
  }

  lemma {:induction false} FillShape(segs: seq<Seg>, data: seq<Byte>)
    requires Full(segs)
    ensures |Fill(segs, data)| == |segs| && Full(Fill(segs, data)) && Capacity(Fill(segs, data)) == Capacity(segs)
  {
    if segs != [] {
      FillShape(segs[1..], data[Min(|segs[0].store|, |data|)..]);
    }
  }

  lemma {:induction false} FillRooms(segs: seq<Seg>, data: seq<Byte>, room: nat)
    requires Rooms(segs, room)
    ensures Rooms(Fill(segs, data), room)
  {
    if segs != [] {
      FillRooms(segs[1..], data[Min(|segs[0].store|, |data|)..], room);
    }
  }

  /** What was written is what is read back, wherever the segment boundaries fall. */
  lemma {:induction false} FillThenRead(segs: seq<Seg>, data: seq<Byte>)
    requires Full(segs) && Full(Fill(segs, data)) && |data| <= Capacity(segs)
    ensures |data| <= |Flatten(Fill(segs, data))| && Flatten(Fill(segs, data))[..|data|] == data
  {
    if segs != [] {
      var n := Min(|segs[0].store|, |data|);
      FillShape(segs[1..], data[n..]);
      FillThenRead(segs[1..], data[n..]);
      FlattenCons(Fill(segs, data));
      Glue(data, n, segs[0].store[n..], Flatten(Fill(segs[1..], data[n..])));
    }
  }

  lemma FlattenCons(segs: seq<Seg>)
    requires Full(segs) && segs != []
    ensures Flatten(segs) == segs[0].store + Flatten(segs[1..])
  {
  }

  /** `data` cut at n, with old bytes behind the first part only if there is no second. */
  lemma Glue(data: seq<Byte>, n: nat, pad: seq<Byte>, rest: seq<Byte>)
    requires n <= |data| && (n < |data| ==> pad == [])
    requires |data| - n <= |rest| && rest[..|data| - n] == data[n..]
    ensures (data[..n] + pad + rest)[..|data|] == data
  {
    if n < |data| {
      assert data[..n] + pad == data[..n];
      TakeAppend(data[..n], rest, |data|);
    } else {
      TakeAppend(data[..n], pad + rest, n);
      assert data[..n] + pad + rest == data[..n] + (pad + rest);
    }
  }

  // ---------- setting the data lengths after an operation ----------

  /** The data lengths of a chain that holds `left` more bytes. */
  function Trim(segs: seq<Seg>, left: nat, room: nat): seq<Seg> {
    if left == 0 || segs == [] then segs
    else
      var n := Min(left, room);
      [segs[0].(len := n)] + Trim(segs[1..], left - n, room)
  }

  lemma {:induction false} TrimShape(segs: seq<Seg>, left: nat, room: nat)
    requires Full(segs) && Rooms(segs, room)
    ensures |Trim(segs, left, room)| == |segs| && Rooms(Trim(segs, left, room), room)
    ensures WellFormed(Trim(segs, left, room))
  {
    if left > 0 && segs != [] {
      TrimShape(segs[1..], left - Min(left, room), room);
    }
  }

  /** One segment of the trimmed chain, and the rest. */
  lemma TrimCons(segs: seq<Seg>, left: nat, room: nat)
    requires Full(segs) && Rooms(segs, room) && left > 0 && segs != []
    ensures var t := Trim(segs[1..], left - Min(left, room), room);
      && WellFormed(t) && WellFormed(Trim(segs, left, room))
      && Flatten(Trim(segs, left, room)) == segs[0].store[..Min(room, left)] + Flatten(t)
  {
    TrimShape(segs, left, room);
    TrimShape(segs[1..], left - Min(left, room), room);
    assert Trim(segs, left, room)[1..] == Trim(segs[1..], left - Min(left, room), room);
  }

  /** Trimming changes nothing that a reader of those bytes sees. */
  lemma {:induction false} TrimThenRead(segs: seq<Seg>, left: nat, room: nat)
    requires Full(segs) && Rooms(segs, room) && left <= Capacity(segs)
    ensures left <= |Flatten(segs)| && WellFormed(Trim(segs, left, room))
    ensures left <= |Flatten(Trim(segs, left, room))|
    ensures Flatten(Trim(segs, left, room))[..left] == Flatten(segs)[..left]
  {
    FullLength(segs);
    if left > 0 {
      var rest := left - Min(left, room);
      TrimCons(segs, left, room);
      FlattenCons(segs);
      TrimThenRead(segs[1..], rest, room);
      PrefixGlue(segs[0].store, Flatten(segs[1..]), Flatten(Trim(segs[1..], rest, room)), left);
    }
  }

  lemma PrefixGlue(a: seq<Byte>, b: seq<Byte>, c: seq<Byte>, k: nat)
    requires var n := Min(|a|, k); k - n <= |b| && k - n <= |c| && b[..k - n] == c[..k - n]
    ensures (a[..Min(|a|, k)] + c)[..k] == (a + b)[..k]
  {
    TakeAppend(a, b, k);
    TakeAppend(a[..Min(|a|, k)], c, k);
  }

  lemma TakeAppend(a: seq<Byte>, b: seq<Byte>, k: nat)
    requires k <= |a + b|
    ensures (a + b)[..k] == if k <= |a| then a[..k] else a + b[..k - |a|]
  {
  }

  method TrimChain(m: Mbuf, produced: nat, room: nat) returns (r: Mbuf)
    requires Rooms(m.segs, room) && produced <= Capacity(m.segs)
    ensures r == Mbuf(Trim(m.segs, produced, room), produced)
  {
    var done: seq<Seg>, next := [], m.segs;
    var left: nat := produced;
    while left > 0
      invariant Rooms(next, room) && left <= Capacity(next)
      invariant Trim(m.segs, produced, room) == done + Trim(next, left, room)
      decreases |next|
    {
      var n := Min(left, room);
      TrimNext(done, next, left, room);
      done := done + [next[0].(len := n)];
      left := left - n;
      next := next[1..];
    }
    r := Mbuf(done + next, produced);
  }

  lemma TrimNext(done: seq<Seg>, next: seq<Seg>, left: nat, room: nat)
    requires left > 0 && next != []
    ensures var n := Min(left, room);
      done + Trim(next, left, room) == (done + [next[0].(len := n)]) + Trim(next[1..], left - n, room)
  {
  }

  // ---------- reading ----------

  /** rte_pktmbuf_read: nothing if the packet is too short; otherwise a pointer into the first
      segment when that is enough, or the bytes gathered from the chain. */
  method ReadChain(m: Mbuf, n: nat) returns (ok: bool, bytes: seq<Byte>)
    requires Readable(m) && m.segs != []
    ensures ok == (n <= m.pktLen)
    ensures ok ==> bytes == Flatten(m.segs)[..n]
  {
    if n > m.pktLen {
      return false, [];
    }
    if n <= m.segs[0].len {
      TakeAppend(m.segs[0].store[..m.segs[0].len], Flatten(m.segs[1..]), n);
      return true, m.segs[0].store[..n];
    }
    bytes := [];
    var left: nat, next := n, m.segs;
    while left > 0
      invariant WellFormed(next) && left <= |Flatten(next)|
      invariant Flatten(m.segs)[..n] == bytes + Flatten(next)[..left]
      decreases |next|
    {
      var take := Min(next[0].len, left);
      ReadNext(bytes, next, left);
      bytes := bytes + next[0].store[..take];
      left := left - take;
      next := next[1..];
    }
    ok := true;
  }

  lemma ReadNext(bytes: seq<Byte>, next: seq<Seg>, left: nat)
    requires WellFormed(next) && next != [] && left <= |Flatten(next)|
    ensures var take := Min(next[0].len, left);
      && WellFormed(next[1..]) && left - take <= |Flatten(next[1..])|
      && bytes + Flatten(next)[..left] == (bytes + next[0].store[..take]) + Flatten(next[1..])[..left - take]
  {
    TakeAppend(next[0].store[..next[0].len], Flatten(next[1..]), left);
  }
}
