/** The RTT table of the sense application: pings, pongs, the self-correcting loss counter and the
    smoothed round trip time (app/sense/stats.c). */
module SenseCounters {
  import opened SenseSamples

  const SENSE_EWMA_ALPHA: real := 0.2

  datatype Entry = Entry(lastRtt: real, ewma: real, lastSampleTsc: nat, lastSeenTsc: nat, lastPingTsc: nat,
                         pingSent: nat, pongRecv: nat, lossCount: nat)

  /** What happened to one peer: pings sent, pongs received with their round trip times. */
  datatype Event = Ping | Pong(rtt: real)

  // ---------- what the counters mean ----------

  function Min(a: int, b: int): int { if a < b then a else b }

  /** Pings minus pongs. */
  function Balance(log: seq<Event>): int {
    if log == [] then 0
    else Balance(log[..|log| - 1]) + (if log[|log| - 1].Ping? then 1 else -1)
  }

  /** The lowest balance so far. */
  function Lowest(log: seq<Event>): int {
    if log == [] then 0 else Min(Lowest(log[..|log| - 1]), Balance(log))
  }

  function Rtts(log: seq<Event>): seq<real> {
    if log == [] then []
    else
      var last := log[|log| - 1];
      Rtts(log[..|log| - 1]) + (if last.Pong? then [last.rtt] else [])
  }

  /** The smoothed round trip time; a value that is not positive starts over. */
  function Ewma(rtts: seq<real>): real {
    if rtts == [] then 0.0
    else
      var before, rtt := Ewma(rtts[..|rtts| - 1]), rtts[|rtts| - 1];
      if before <= 0.0 then rtt else SENSE_EWMA_ALPHA * rtt + (1.0 - SENSE_EWMA_ALPHA) * before
  }

  /** Lowest is indeed the least balance of any moment, and reached at some moment. */
  lemma {:induction false} LowestIsLeast(log: seq<Event>)
    ensures forall k :: 0 <= k <= |log| ==> Lowest(log) <= Balance(log[..k])
    ensures exists k :: 0 <= k <= |log| && Lowest(log) == Balance(log[..k])
  {
    var n := |log|;
    assert log[..n] == log;
    if n == 0 {
      assert Balance(log[..0]) == 0;
    } else {
      var front := log[..n - 1];
      LowestIsLeast(front);
      assert forall k :: 0 <= k < n ==> front[..k] == log[..k];
      var k :| 0 <= k <= |front| && Lowest(front) == Balance(front[..k]);
      assert Lowest(log) == Balance(log[..k]) || Lowest(log) == Balance(log[..n]);
    }
  }

  /** The counters of an entry tell its story: the loss is the balance above its lowest point. */
  predicate Tells(e: Entry, log: seq<Event>) {
    && e.pongRecv == |Rtts(log)|
    && e.lossCount == Balance(log) - Lowest(log)
    && e.pingSent == e.pongRecv + e.lossCount
    && e.ewma == Ewma(Rtts(log))
  }

  /** The loss counter is pings minus pongs exactly as long as no moment had more pongs than pings. */
  lemma LossIsBalance(e: Entry, log: seq<Event>)
    requires Tells(e, log)
    ensures e.lossCount == Balance(log) <==> forall k :: 0 <= k <= |log| ==> Balance(log[..k]) >= 0
  {
    LowestIsLeast(log);
    assert Balance(log[..0]) == 0;
  }

  /** In general it counts what was lost since some moment after which the balance never fell
      below that moment's again. */
  lemma LossSinceLowest(e: Entry, log: seq<Event>)
    requires Tells(e, log)
    ensures exists k ::
      && 0 <= k <= |log| && e.lossCount == Balance(log) - Balance(log[..k])
      && (forall j :: 0 <= j <= |log| ==> Balance(log[..k]) <= Balance(log[..j]))
  {
    LowestIsLeast(log);
    var k :| 0 <= k <= |log| && Lowest(log) == Balance(log[..k]);
    assert forall j :: 0 <= j <= |log| ==> Balance(log[..k]) <= Balance(log[..j]);
  }

  /** The smoothed round trip time stays within the range of the samples. */
  lemma {:induction false} EwmaBounds(rtts: seq<real>, lo: real, hi: real)
    requires 0.0 < lo && rtts != [] && forall i :: 0 <= i < |rtts| ==> lo <= rtts[i] <= hi
    ensures lo <= Ewma(rtts) <= hi
  {
    var front := rtts[..|rtts| - 1];
    if front != [] {
      EwmaBounds(front, lo, hi);
    }
  }

  /** One sample a, then n samples b. */
  function Jump(a: real, b: real, n: nat): seq<real> {
    if n == 0 then [a] else Jump(a, b, n - 1) + [b]
  }

  /** What is left of a distance d after n times four fifths. */
  function Fifths(d: real, n: nat): real {
    if n == 0 then d else 0.8 * Fifths(d, n - 1)
  }

  lemma {:induction false} FifthsShrink(d: real, n: nat)
    ensures if d >= 0.0 then 0.0 <= Fifths(d, n) <= d else d <= Fifths(d, n) <= 0.0
  {
    if n > 0 {
      FifthsShrink(d, n - 1);
    }
  }

  /** After a jump of the round trip time four fifths of the distance remain after each sample. */
  lemma {:induction false} EwmaFollows(a: real, b: real, n: nat)
    requires a > 0.0 && b > 0.0
    ensures Ewma(Jump(a, b, n)) == b + Fifths(a - b, n) > 0.0
  {
    FifthsShrink(a - b, n);
    if n == 0 {
      assert [a][..0] == [] && Ewma([a][..0]) == 0.0;
    } else {
      EwmaFollows(a, b, n - 1);
      EwmaStep(Jump(a, b, n - 1), b);
    }
  }

  // ---------- one event more ----------

  lemma PingStep(log: seq<Event>)
    ensures Balance(log + [Ping]) == Balance(log) + 1 && Lowest(log + [Ping]) == Lowest(log)
    ensures Rtts(log + [Ping]) == Rtts(log)
  {
    assert (log + [Ping])[..|log|] == log;
    LowestBelow(log);
  }

  lemma PongStep(log: seq<Event>, rtt: real)
    ensures Balance(log + [Pong(rtt)]) == Balance(log) - 1
    ensures Lowest(log + [Pong(rtt)]) == Min(Lowest(log), Balance(log) - 1)
    ensures Rtts(log + [Pong(rtt)]) == Rtts(log) + [rtt]
  {
    assert (log + [Pong(rtt)])[..|log|] == log;
  }

  lemma LowestBelow(log: seq<Event>)
    ensures Lowest(log) <= Balance(log)
  {
  }

  lemma EwmaStep(rtts: seq<real>, rtt: real)
    ensures Ewma(rtts + [rtt]) == if Ewma(rtts) <= 0.0 then rtt
      else SENSE_EWMA_ALPHA * rtt + (1.0 - SENSE_EWMA_ALPHA) * Ewma(rtts)
  {
    assert (rtts + [rtt])[..|rtts|] == rtts;
  }

  class RttTable {
    /** rtt_tbl is NULL until sense_stats_init has run. */
    var ready: bool
    const entries: array<Entry>
    /** For each peer, the events recorded since the table is ready. */
    ghost var log: seq<seq<Event>>

    ghost predicate Valid()
      reads this, entries
    {
      && entries.Length == |log| == SENSE_MAX_NODES + 1
      && forall p :: 0 <= p <= SENSE_MAX_NODES ==> Tells(entries[p], log[p])
    }

    constructor ()
      ensures Valid() && !ready && fresh(entries)
    {
      entries := new Entry[SENSE_MAX_NODES + 1](_ => Entry(0.0, 0.0, 0, 0, 0, 0, 0, 0));
      log := seq(SENSE_MAX_NODES + 1, _ => []);
      ready := false;
    }

    /** sense_stats_init: everything starts at zero. */
    method Init()
      requires Valid()
      modifies this, entries
      ensures Valid() && ready && forall p :: 0 <= p <= SENSE_MAX_NODES ==> log[p] == []
      ensures forall p :: 0 <= p <= SENSE_MAX_NODES ==> entries[p] == Entry(0.0, 0.0, 0, 0, 0, 0, 0, 0)
    {
      forall p | 0 <= p <= SENSE_MAX_NODES {
        entries[p] := Entry(0.0, 0.0, 0, 0, 0, 0, 0, 0);
      }
      log := seq(SENSE_MAX_NODES + 1, _ => []);
      ready := true;
    }

    /** The event is recorded for this peer only; the counters of every peer keep telling its story. */
    method RecordPing(peer: nat, now: nat)
      requires Valid()
      modifies this`log, entries
      ensures Valid()
      ensures log == if !ready || PeerInvalid(peer) then old(log) else old(log)[peer := old(log)[peer] + [Ping]]
      ensures !ready || PeerInvalid(peer) ==> entries[..] == old(entries[..])
      ensures ready && !PeerInvalid(peer) ==>
        && entries[..] == old(entries[..])[peer := entries[peer]] && entries[peer].lastPingTsc == now
        && entries[peer].lastRtt == old(entries[peer]).lastRtt
        && entries[peer].lastSampleTsc == old(entries[peer]).lastSampleTsc
        && entries[peer].lastSeenTsc == old(entries[peer]).lastSeenTsc
    {
      if !ready || PeerInvalid(peer) {
        return;
      }
      PingStep(log[peer]);
      LowestBelow(log[peer]);
      var e := entries[peer].(lastPingTsc := now, pingSent := entries[peer].pingSent + 1);
      if e.pingSent < e.pongRecv {
        e := e.(pingSent := e.pongRecv);
      }
      entries[peer] := e.(lossCount := e.pingSent - e.pongRecv);
      log := log[peer := log[peer] + [Ping]];
    }

    method Update(peer: nat, rtt: real, now: nat)
      requires Valid()
      modifies this`log, entries
      ensures Valid()
      ensures log == if !ready || PeerInvalid(peer) then old(log) else old(log)[peer := old(log)[peer] + [Pong(rtt)]]
      ensures !ready || PeerInvalid(peer) ==> entries[..] == old(entries[..])
      ensures ready && !PeerInvalid(peer) ==>
        && entries[..] == old(entries[..])[peer := entries[peer]]
        && entries[peer].lastRtt == rtt && entries[peer].lastSampleTsc == entries[peer].lastSeenTsc == now
        && entries[peer].lastPingTsc == old(entries[peer]).lastPingTsc
    {
      if !ready || PeerInvalid(peer) {
        return;
      }
      PongStep(log[peer], rtt);
      LowestBelow(log[peer]);
      EwmaStep(Rtts(log[peer]), rtt);
      var e := entries[peer].(lastRtt := rtt);
      if e.ewma <= 0.0 {
        e := e.(ewma := rtt);
      } else {
        e := e.(ewma := SENSE_EWMA_ALPHA * rtt + (1.0 - SENSE_EWMA_ALPHA) * e.ewma);
      }
      e := e.(lastSampleTsc := now, lastSeenTsc := now, pongRecv := e.pongRecv + 1);
      if e.pongRecv > e.pingSent {
        e := e.(pingSent := e.pongRecv);
      }
      entries[peer] := e.(lossCount := e.pingSent - e.pongRecv);
      log := log[peer := log[peer] + [Pong(rtt)]];
    }
  }
}
