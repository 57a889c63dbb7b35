/** The delay filter that feeds the estimator: the MSG_PS_BROADCAST branch of process_packets in
    app/raft-netelect-backup/networking.c, over reals. */
module ClockFilter {
  import opened RttEstimator

  /** What is known of a peer's clock. */
  datatype Sync = Sync(ready: bool, scale: real, offset: real, bestOwd: real)

  /** A broadcast: the peer's send time and clock rate, and the local receive time. */
  datatype Stamp = Stamp(sendTs: nat, remHz: nat, recvTs: nat)

  /** The delay as the two clocks show it, before any correction of their offset. */
  function RawDelay(s: Stamp, scale: real): real { s.recvTs as real - s.sendTs as real * scale }

  function First(s: Stamp, hz: nat): Sync
    requires s.remHz > 0
  {
    var scale := hz as real / s.remHz as real;
    Sync(true, scale, RawDelay(s, scale) - Abs(RawDelay(s, scale)), Abs(RawDelay(s, scale)))
  }

  /** A shorter corrected delay replaces the best one, and moves the offset so that it is met. */
  function Improve(y: Sync, s: Stamp): Sync {
    var d := RawDelay(s, y.scale);
    var owd := Abs(d - y.offset);
    if owd < y.bestOwd then y.(bestOwd := owd, offset := d - owd) else y
  }

  function Next(y: Sync, s: Stamp, hz: nat): Sync
    requires s.remHz > 0
  {
    Improve(if y.ready then y else First(s, hz), s)
  }

  const NoSync := Sync(false, 0.0, 0.0, 0.0)

  ghost predicate Rated(log: seq<Stamp>) {
    forall i :: 0 <= i < |log| ==> log[i].remHz > 0
  }

  /** The filter after all broadcasts of a peer. */
  ghost function Filtered(log: seq<Stamp>, hz: nat): Sync
    requires Rated(log)
  {
    if log == [] then NoSync else Next(Filtered(log[..|log| - 1], hz), log[|log| - 1], hz)
  }

  /** The round trip times it reports, one a broadcast. */
  ghost function Reported(log: seq<Stamp>, hz: nat): seq<real>
    requires Rated(log) && hz > 0
  {
    if log == [] then []
    else Reported(log[..|log| - 1], hz) + [Filtered(log, hz).bestOwd * 2000.0 / hz as real]
  }

  /** One broadcast never worsens the best delay, never raises the offset, and moves the offset only
      for a corrected delay below zero that is nearer to zero than the best one. */
  lemma ImproveFacts(y: Sync, s: Stamp)
    requires y.bestOwd >= 0.0
    ensures var z := Improve(y, s);
      && 0.0 <= z.bestOwd <= y.bestOwd && z.offset <= y.offset && z.ready == y.ready && z.scale == y.scale
      && (z.offset == y.offset <==> !(y.offset - y.bestOwd < RawDelay(s, y.scale) < y.offset))
  {
  }

  lemma {:induction false} BestFalls(log: seq<Stamp>, hz: nat)
    requires Rated(log) && log != []
    ensures Filtered(log, hz).ready && Filtered(log, hz).bestOwd >= 0.0
    ensures |log| > 1 ==>
      Filtered(log, hz).bestOwd <= Filtered(log[..|log| - 1], hz).bestOwd
  {
    var front := log[..|log| - 1];
    if front != [] {
      BestFalls(front, hz);
    }
  }

  /** The reported round trip times never increase. */
  lemma {:induction false} ReportsFall(log: seq<Stamp>, hz: nat)
    requires Rated(log) && hz > 0
    ensures |Reported(log, hz)| == |log| && Falling(Reported(log, hz))
    ensures forall i :: 0 <= i < |log| ==> Reported(log, hz)[i] >= 0.0
  {
    if log != [] {
      var front := log[..|log| - 1];
      ReportsFall(front, hz);
      BestFalls(log, hz);
      var before, rtt := Reported(front, hz), Filtered(log, hz).bestOwd * 2000.0 / hz as real;
      assert rtt >= 0.0;
      if front != [] {
        Scaled(Filtered(log, hz).bestOwd, Filtered(front, hz).bestOwd, hz);
        assert rtt <= before[|before| - 1];
      }
      assert Reported(log, hz) == before + [rtt];
    }
  }

  lemma Scaled(a: real, b: real, hz: nat)
    requires a <= b && hz > 0
    ensures a * 2000.0 / hz as real <= b * 2000.0 / hz as real
  {
  }

  /** Once no raw delay falls below the offset, the offset is settled and the best delay is the least
      corrected one. */
  ghost predicate Settled(log: seq<Stamp>, scale: real, offset: real) {
    forall i :: 0 <= i < |log| ==> RawDelay(log[i], scale) >= offset
  }

  /** The filter on a stretch of broadcasts from a given state. */
  function Onward(y: Sync, log: seq<Stamp>): Sync {
    if log == [] then y else Improve(Onward(y, log[..|log| - 1]), log[|log| - 1])
  }

  function Least(best: real, log: seq<Stamp>, scale: real, offset: real): real {
    if log == [] then best
    else
      var least, d := Least(best, log[..|log| - 1], scale, offset), RawDelay(log[|log| - 1], scale) - offset;
      if d < least then d else least
  }

  lemma {:induction false} SettledForm(y: Sync, log: seq<Stamp>)
    requires Settled(log, y.scale, y.offset)
    ensures Onward(y, log) == y.(bestOwd := Least(y.bestOwd, log, y.scale, y.offset))
  {
    if log != [] {
      SettledForm(y, log[..|log| - 1]);
    }
  }

  /** The scale is fixed by the first broadcast. */
  function Scale(log: seq<Stamp>, hz: nat): real
    requires log != [] && log[0].remHz > 0
  {
    hz as real / log[0].remHz as real
  }

  ghost predicate IsLeastRaw(best: real, log: seq<Stamp>, scale: real) {
    && (forall i :: 0 <= i < |log| ==> best <= RawDelay(log[i], scale))
    && exists i :: 0 <= i < |log| && best == RawDelay(log[i], scale)
  }

  lemma {:induction false} SameScale(log: seq<Stamp>, hz: nat)
    requires Rated(log) && log != []
    ensures Filtered(log, hz).ready && Filtered(log, hz).scale == Scale(log, hz)
  {
    if |log| > 1 {
      SameScale(log[..|log| - 1], hz);
    }
  }

  /** The first broadcast fixes the scale and starts the best delay at its own, and the offset at zero
      or, when the clocks show a negative delay, at twice that delay. */
  lemma FirstStamp(s: Stamp, hz: nat)
    requires s.remHz > 0
    ensures var y := Filtered([s], hz); var d := s.recvTs as real - s.sendTs as real * y.scale;
      && y.ready && y.scale * s.remHz as real == hz as real
      && (d >= 0.0 ==> y.bestOwd == d && y.offset == 0.0)
      && (d < 0.0 ==> y.bestOwd == -d && y.offset == 2.0 * d)
  {
    assert [s][..0] == [];
    assert Filtered([s][..0], hz) == NoSync;
  }

  /** State z after state y and a broadcast with this corrected delay: the best delay is the smaller of
      the two, and the offset moves, by twice the corrected delay, only if that is negative and small. */
  predicate Smaller(y: Sync, z: Sync, corrected: real) {
    && z.ready == y.ready && z.scale == y.scale
    && z.bestOwd == (if Abs(corrected) < y.bestOwd then Abs(corrected) else y.bestOwd)
    && z.offset == (if -y.bestOwd < corrected < 0.0 then y.offset + 2.0 * corrected else y.offset)
  }

  lemma ImproveSmaller(y: Sync, s: Stamp)
    requires y.bestOwd >= 0.0
    ensures Smaller(y, Improve(y, s), RawDelay(s, y.scale) - y.offset)
  {
    var d := RawDelay(s, y.scale);
    assert Abs(d - y.offset) == if d < y.offset then y.offset - d else d - y.offset;
  }

  /** Every later broadcast leaves the smaller of its corrected delay and the best one so far. */
  lemma LaterStamp(log: seq<Stamp>, s: Stamp, hz: nat)
    requires Rated(log) && log != [] && s.remHz > 0
    ensures Rated(log + [s])
    ensures Smaller(Filtered(log, hz), Filtered(log + [s], hz),
                    RawDelay(s, Filtered(log, hz).scale) - Filtered(log, hz).offset)
  {
    BestFalls(log, hz);
    assert (log + [s])[..|log|] == log;
    ImproveSmaller(Filtered(log, hz), s);
  }

  /** The offset is always that of the broadcast that set the best delay: corrected by it, some
      broadcast shows exactly the best delay. */
  lemma {:induction false} BestIsMet(log: seq<Stamp>, hz: nat) returns (i: nat)
    requires Rated(log) && log != []
    ensures i < |log| && RawDelay(log[i], Scale(log, hz)) - Filtered(log, hz).offset == Filtered(log, hz).bestOwd
  {
    var front, last := log[..|log| - 1], log[|log| - 1];
    SameScale(log, hz);
    if front == [] {
      assert log == [last];
      FirstStamp(last, hz);
      i := 0;
    } else {
      SameScale(front, hz);
      i := BestIsMet(front, hz);
      if Filtered(log, hz) != Filtered(front, hz) {
        i := |log| - 1;
      }
    }
  }

  /** The offset after the first broadcast. */
  function Start(log: seq<Stamp>, hz: nat): real
    requires log != [] && log[0].remHz > 0
  {
    var d := RawDelay(log[0], Scale(log, hz));
    if d >= 0.0 then 0.0 else 2.0 * d
  }

  ghost predicate AllFrom(log: seq<Stamp>, scale: real, lo: real) {
    forall i :: 0 <= i < |log| ==> RawDelay(log[i], scale) >= lo
  }

  lemma {:induction false} LeastFromStart(log: seq<Stamp>, hz: nat)
    requires Rated(log) && log != [] && AllFrom(log, Scale(log, hz), Start(log, hz))
    ensures Filtered(log, hz).offset == Start(log, hz)
    ensures IsLeastRaw(Filtered(log, hz).bestOwd + Start(log, hz), log, Scale(log, hz))
  {
    SameScale(log, hz);
    var front, last := log[..|log| - 1], log[|log| - 1];
    if front == [] {
      assert log == [last];
      FirstStamp(last, hz);
    } else {
      assert front[0] == log[0];
      LeastFromStart(front, hz);
      SameScale(front, hz);
      LeastNext(front, last, Scale(log, hz), Filtered(front, hz).bestOwd + Start(log, hz));
      assert log == front + [last];
    }
  }

  lemma LeastNext(log: seq<Stamp>, s: Stamp, scale: real, best: real)
    requires IsLeastRaw(best, log, scale)
    ensures IsLeastRaw(if RawDelay(s, scale) < best then RawDelay(s, scale) else best, log + [s], scale)
  {
    var i :| 0 <= i < |log| && best == RawDelay(log[i], scale);
    var next := log + [s];
    assert next[i] == log[i] && next[|log|] == s;
  }

  /** The value of the best delay, for clocks that show negative delays too: it is the least raw delay,
      corrected by the first offset, exactly when no raw delay lies below that offset. */
  lemma LeastCorrectedExactly(log: seq<Stamp>, hz: nat)
    requires Rated(log) && log != []
    ensures IsLeastRaw(Filtered(log, hz).bestOwd + Start(log, hz), log, Scale(log, hz))
            <==> AllFrom(log, Scale(log, hz), Start(log, hz))
  {
    BestFalls(log, hz);
    if AllFrom(log, Scale(log, hz), Start(log, hz)) {
      LeastFromStart(log, hz);
    }
  }

  /** The filter finds the least delay the clocks show exactly when they never show a negative one:
      with a peer whose clock runs ahead by more than the delay, it does not. */
  lemma LeastDelayExactly(log: seq<Stamp>, hz: nat)
    requires Rated(log) && log != []
    ensures IsLeastRaw(Filtered(log, hz).bestOwd, log, Scale(log, hz)) <==> AllFrom(log, Scale(log, hz), 0.0)
  {
    BestFalls(log, hz);
    if AllFrom(log, Scale(log, hz), 0.0) {
      assert RawDelay(log[0], Scale(log, hz)) >= 0.0;
      LeastFromStart(log, hz);
    }
  }

  /** One more broadcast, as the filter and the estimator see it. */
  lemma ReportNext(log: seq<Stamp>, s: Stamp, hz: nat)
    requires Rated(log) && s.remHz > 0 && hz > 0
    ensures var y, samples := Next(Filtered(log, hz), s, hz), Reported(log + [s], hz);
      && Rated(log + [s]) && Filtered(log + [s], hz) == y
      && samples == Reported(log, hz) + [y.bestOwd * 2000.0 / hz as real]
      && After(samples).mu >= y.bestOwd * 2000.0 / hz as real
      && (log != [] ==> After(samples).mu <= After(Reported(log, hz)).mu)
  {
    assert (log + [s])[..|log|] == log;
    var samples := Reported(log + [s], hz);
    ReportsFall(log, hz);
    ReportsFall(log + [s], hz);
    MeanFalls(samples);
    assert samples[..|samples| - 1] == Reported(log, hz);
  }

  class Receiver {
    const syncTab: array<Sync>
    const timeouts: Timeouts
    const hz: nat
    /** For each peer, the broadcasts handled so far. */
    ghost var log: seq<seq<Stamp>>

    /** What was handled for one peer: its clock state, and the samples its estimate was fed. */
    ghost predicate Peer(p: nat)
      requires p <= NUM_NODES && |log| == syncTab.Length == |timeouts.samples| == NUM_NODES + 1 && hz > 0
      reads this, syncTab, timeouts
    {
      Rated(log[p]) && syncTab[p] == Filtered(log[p], hz) && timeouts.samples[p] == Reported(log[p], hz)
    }

    ghost predicate Valid()
      reads this, syncTab, timeouts, timeouts.mu, timeouts.sigma
    {
      && hz > 0 && timeouts.Valid() && |log| == syncTab.Length == NUM_NODES + 1
      && forall p :: 0 <= p <= NUM_NODES ==> Peer(p)
    }

    constructor (timeouts: Timeouts, hz: nat)
      requires hz > 0 && timeouts.Valid() && forall p :: 0 <= p <= NUM_NODES ==> timeouts.samples[p] == []
      ensures Valid() && this.timeouts == timeouts && this.hz == hz && fresh(syncTab)
    {
      this.timeouts, this.hz := timeouts, hz;
      syncTab := new Sync[NUM_NODES + 1](_ => NoSync);
      log := seq(NUM_NODES + 1, _ => []);
    }

    /** The filter's part of the branch. */
    method Filter(peer: nat, s: Stamp)
      requires peer < syncTab.Length && s.remHz > 0
      modifies syncTab
      ensures syncTab[..] == old(syncTab[..])[peer := Next(old(syncTab[peer]), s, hz)]
    {
      var y := syncTab[peer];
      if !y.ready {
        var scale := hz as real / s.remHz as real;
        var sent := s.sendTs as real * scale;
        var firstOwd := Abs(s.recvTs as real - sent);
        y := Sync(true, scale, s.recvTs as real - sent - firstOwd, firstOwd);
        assert y == First(s, hz);
      }
      var sent := s.sendTs as real * y.scale;
      assert RawDelay(s, y.scale) == s.recvTs as real - sent;
      var recvPred := sent + y.offset;
      var owd := Abs(s.recvTs as real - recvPred);
      if owd < y.bestOwd {
        y := y.(bestOwd := owd, offset := s.recvTs as real - sent - owd);
      }
      syncTab[peer] := y;
    }

    /** A broadcast from a peer: its mean never increases and never drops below the latest sample. */
    method OnBroadcast(peer: nat, s: Stamp)
      requires Valid() && peer <= NUM_NODES && s.remHz > 0
      modifies this, syncTab, timeouts, timeouts.mu, timeouts.sigma
      ensures Valid() && log == old(log)[peer := old(log)[peer] + [s]]
      ensures timeouts.samples == old(timeouts.samples)[peer := old(timeouts.samples[peer]) + [syncTab[peer].bestOwd * 2000.0 / hz as real]]
      ensures timeouts.mu[peer] >= syncTab[peer].bestOwd * 2000.0 / hz as real
      ensures |old(log)[peer]| > 0 ==> timeouts.mu[peer] <= old(timeouts.mu[peer])
    {
      ghost var was := log[peer];
      assert Peer(peer);
      ReportNext(was, s, hz);
      Filter(peer, s);
      var rtt := syncTab[peer].bestOwd * 2000.0 / hz as real;
      timeouts.SenseUpdate(peer, rtt);
      log := log[peer := was + [s]];
      assert Peer(peer);
      forall p | 0 <= p <= NUM_NODES && p != peer ensures Peer(p) {
        assert old(Peer(p));
      }
    }
  }
}
