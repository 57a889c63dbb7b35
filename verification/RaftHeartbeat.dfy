/** What the receivers of packets do, step by step over runs: heartbeats are obeyed, failed nodes are
    deaf and mute, and the heartbeats of a leader settle the cluster behind it. */
module RaftHeartbeat {
  import opened RaftNode
  import opened RaftCluster
  import opened RaftInvariant
  import opened RaftSafety

  /** Step k delivers packet `e`. */
  predicate Brings(run: seq<Cluster>, steps: seq<Step>, k: nat, e: Envelope) {
    k < |steps| && k < |run| && steps[k].Deliver? && steps[k].k < |run[k].sent| && run[k].sent[steps[k].k] == e
  }

  // ---------- single steps of runs ----------

  /** A live node that is not in a newer term follows a heartbeat: it becomes a follower of that term
      with its timer armed, keeps its vote if it was in that term and has none if it was not, and
      sends nothing. No other node changes. */
  lemma HeartbeatObeyed(cfg: Config, run: seq<Cluster>, steps: seq<Step>, k: nat, v: nat, t: nat, i: nat)
    requires IsPath(cfg, run, steps) && Brings(run, steps, k, Envelope(v, Packet(Heartbeat, t, i)))
    requires v in run[k].nodes && !run[k].nodes[v].failed && run[k].nodes[v].term <= t
    ensures v in run[k + 1].nodes && run[k + 1].sent == run[k].sent
    ensures var s, s' := run[k].nodes[v], run[k + 1].nodes[v];
      && s'.role == Follower && s'.term == t && s'.timer && !s'.failed && s'.id == s.id
      && s'.votedFor == (if s.term < t then 0 else s.votedFor)
      && run[k + 1].nodes == run[k].nodes[v := s']
  {
    assert Moves(cfg, run, steps, k);
  }

  /** An older heartbeat changes nothing. */
  lemma OldHeartbeatIgnored(cfg: Config, run: seq<Cluster>, steps: seq<Step>, k: nat, v: nat, t: nat, i: nat)
    requires IsPath(cfg, run, steps) && Brings(run, steps, k, Envelope(v, Packet(Heartbeat, t, i)))
    requires v in run[k].nodes && t < run[k].nodes[v].term
    ensures run[k + 1].nodes == run[k].nodes && run[k + 1].sent == run[k].sent
  {
    assert Moves(cfg, run, steps, k);
    assert run[k + 1].nodes == run[k].nodes[v := run[k].nodes[v]];
  }

  /** A failed node drops every packet. */
  lemma FailedIsDeaf(cfg: Config, run: seq<Cluster>, steps: seq<Step>, k: nat, e: Envelope)
    requires IsPath(cfg, run, steps) && Brings(run, steps, k, e)
    requires e.dst in run[k].nodes && run[k].nodes[e.dst].failed
    ensures run[k + 1].nodes == run[k].nodes && run[k + 1].sent == run[k].sent && run[k + 1].counted == run[k].counted
  {
    assert Moves(cfg, run, steps, k);
    assert run[k + 1].nodes == run[k].nodes[e.dst := run[k].nodes[e.dst]];
  }

  /** A heartbeat tick of a live leader sends its heartbeat once to each peer; any other tick sends
      nothing. */
  lemma TickSends(cfg: Config, run: seq<Cluster>, steps: seq<Step>, k: nat, i: nat)
    requires cfg.nodeNum >= 2 && IsPath(cfg, run, steps) && Reachable(cfg, run[0])
    requires k < |steps| && steps[k] == HeartbeatTick(i) && i in run[k].nodes
    ensures run[k + 1].nodes == run[k].nodes && run[k].sent <= run[k + 1].sent
    ensures var s, out := run[k].nodes[i], run[k + 1].sent[|run[k].sent|..];
      if s.role == Leader && !s.failed
      then ToEachPeer(cfg, out, Packet(Heartbeat, s.term, i))
      else out == []
  {
    assert Moves(cfg, run, steps, k);
    OwnId(cfg, run, steps, k, i);
    var s := run[k].nodes[i];
    BroadcastReaches(cfg.nodeNum, Packet(Heartbeat, s.term, i));
    assert run[k + 1].sent[|run[k].sent|..] == SendHeartbeat(cfg, s);
  }

  lemma OwnId(cfg: Config, run: seq<Cluster>, steps: seq<Step>, k: nat, i: nat)
    requires cfg.nodeNum >= 2 && IsPath(cfg, run, steps) && Reachable(cfg, run[0]) && k < |run| && i in run[k].nodes
    ensures run[k].nodes[i].id == i
  {
    ReachableInv(cfg, run[0]);
    RunInv(cfg, run, steps, k);
  }

  /** `out` is one copy of the packet for each peer of its sender. */
  ghost predicate ToEachPeer(cfg: Config, out: seq<Envelope>, pkt: Packet) {
    && (forall e :: e in out <==> e.pkt == pkt && 1 <= e.dst <= cfg.nodeNum && e.dst != pkt.nodeId)
    && Distinct(out)
  }

  /** A node becomes leader only as a live candidate by the response that completes its majority; it
      then sends its first heartbeats, and its failure is scheduled exactly if the test asks for it. */
  lemma Elected(cfg: Config, run: seq<Cluster>, steps: seq<Step>, k: nat, i: nat)
    requires cfg.nodeNum >= 2 && IsRun(cfg, run, steps) && k < |steps| && i in run[k].nodes && i in run[k + 1].nodes
    requires run[k].nodes[i].role != Leader && run[k + 1].nodes[i].role == Leader
    ensures steps[k].Deliver? && steps[k].k < |run[k].sent| && run[k].sent <= run[k + 1].sent
    ensures var s, s', e := run[k].nodes[i], run[k + 1].nodes[i], run[k].sent[steps[k].k];
      && e.dst == i && e.pkt.msgType == VoteResponse && e.pkt.term == s.term == s'.term
      && s.role == Candidate && !s.failed && s.granted == cfg.nodeNum / 2
      && (s'.failTimer <==> s.failTimer || cfg.testAutoFail)
      && ToEachPeer(cfg, run[k + 1].sent[|run[k].sent|..], Packet(Heartbeat, s.term, i))
  {
    NodeFacts(cfg, run, steps, k, i);
    assert Moves(cfg, run, steps, k);
    var s := run[k].nodes[i];
    match steps[k]
    case Timeout(j) =>
    case Deliver(p) =>
      var e := run[k].sent[p];
      assert e.dst == i;
      ElectedBy(cfg, s, e.pkt);
      assert run[k + 1].sent[|run[k].sent|..] == HandlePacket(cfg, s, e.pkt).out;
    case HeartbeatTick(j) =>
    case FailTimer(j) =>
    case RecoverTimer(j) =>
  }

  lemma NodeFacts(cfg: Config, run: seq<Cluster>, steps: seq<Step>, k: nat, i: nat)
    requires cfg.nodeNum >= 2 && IsRun(cfg, run, steps) && k < |run| && i in run[k].nodes
    ensures run[k].nodes[i].id == i && NodeInv(cfg, run[k].nodes[i])
  {
    RunInvariant(cfg, run, steps, k);
  }

  lemma ElectedBy(cfg: Config, s: NodeState, p: Packet)
    requires NodeInv(cfg, s) && s.role != Leader && HandlePacket(cfg, s, p).state.role == Leader
    ensures p.msgType == VoteResponse && p.term == s.term && s.role == Candidate && !s.failed
    ensures s.granted == cfg.nodeNum / 2
    ensures var r := HandlePacket(cfg, s, p);
      && r.state.term == s.term && (r.state.failTimer <==> s.failTimer || cfg.testAutoFail)
      && ToEachPeer(cfg, r.out, Packet(Heartbeat, s.term, s.id))
  {
    BroadcastReaches(cfg.nodeNum, Packet(Heartbeat, s.term, s.id));
  }

  /** In every cluster of every run a failed node has its recovery scheduled, and only a failed one;
      without the auto-fail test no node ever fails or is scheduled to. */
  lemma {:induction false} FailureFlags(cfg: Config, run: seq<Cluster>, steps: seq<Step>, k: nat, i: nat)
    requires IsRun(cfg, run, steps) && k < |run| && i in run[k].nodes
    ensures run[k].nodes[i].failed <==> run[k].nodes[i].recoverTimer
    ensures run[k].nodes[i].failed || run[k].nodes[i].failTimer ==> cfg.testAutoFail
  {
    if k > 0 {
      assert Moves(cfg, run, steps, k - 1);
      FailureFlags(cfg, run, steps, k - 1, i);
    }
  }

  /** Failing and recovering touch nothing but these flags: role, term, vote, tally and timer stay. */
  lemma FlagSteps(cfg: Config, run: seq<Cluster>, steps: seq<Step>, k: nat, i: nat)
    requires IsPath(cfg, run, steps) && k < |steps| && i in run[k].nodes
    requires steps[k] == FailTimer(i) || steps[k] == RecoverTimer(i)
    ensures i in run[k + 1].nodes && run[k + 1].sent == run[k].sent
    ensures var s, s' := run[k].nodes[i], run[k + 1].nodes[i];
      && run[k + 1].nodes == run[k].nodes[i := s']
      && (s'.id, s'.role, s'.term, s'.votedFor, s'.granted, s'.timer) == (s.id, s.role, s.term, s.votedFor, s.granted, s.timer)
      && s'.failed == s'.recoverTimer == steps[k].FailTimer?
  {
    assert Moves(cfg, run, steps, k);
  }

  // ---------- a leader settles its cluster ----------

  function Beat(v: nat, t: nat, i: nat): Envelope { Envelope(v, Packet(Heartbeat, t, i)) }

  /** A path on which leader i of term t sends heartbeats and some of them arrive, and nothing else
      happens. */
  ghost predicate IsReign(cfg: Config, run: seq<Cluster>, steps: seq<Step>, i: nat, t: nat) {
    && IsPath(cfg, run, steps) && Reachable(cfg, run[0]) && Leads(run[0], i, t)
    && forall k :: 0 <= k < |steps| ==> OfReign(run[k], steps[k], i, t)
  }

  predicate OfReign(c: Cluster, s: Step, i: nat, t: nat) {
    || s == HeartbeatTick(i)
    || (s.Deliver? && s.k < |c.sent| && c.sent[s.k].pkt == Packet(Heartbeat, t, i))
  }

  /** One of the first k steps brought node v a heartbeat of the reign. */
  ghost predicate Heard(run: seq<Cluster>, steps: seq<Step>, i: nat, t: nat, v: nat, k: nat) {
    exists j :: 0 <= j < k && Brings(run, steps, j, Beat(v, t, i))
  }

  predicate Follows(s: NodeState, t: nat) {
    s.role == Follower && s.term == t && s.timer && !s.failed
  }

  /** Node v after k steps of the reign: live and not ahead, it follows once it heard; else it is as at
      the start. */
  ghost predicate ReignAt(run: seq<Cluster>, steps: seq<Step>, i: nat, t: nat, v: nat, k: nat)
    requires k < |run| && 0 < |run|
  {
    && v in run[0].nodes && v in run[k].nodes
    && if v != i && !run[0].nodes[v].failed && run[0].nodes[v].term <= t && Heard(run, steps, i, t, v, k)
       then Follows(run[k].nodes[v], t)
       else run[k].nodes[v] == run[0].nodes[v]
  }

  /** One step of the reign, seen from node v. */
  lemma ReignStep(cfg: Config, run: seq<Cluster>, steps: seq<Step>, i: nat, t: nat, v: nat, k: nat)
    requires cfg.nodeNum >= 2 && IsReign(cfg, run, steps, i, t) && k < |steps| && v in run[k].nodes
    ensures v in run[k + 1].nodes
    ensures !Brings(run, steps, k, Beat(v, t, i)) || run[k].nodes[v].failed || run[k].nodes[v].term > t
            ==> run[k + 1].nodes[v] == run[k].nodes[v]
    ensures Brings(run, steps, k, Beat(v, t, i)) ==> v != i
    ensures Brings(run, steps, k, Beat(v, t, i)) && !run[k].nodes[v].failed && run[k].nodes[v].term <= t
            ==> Follows(run[k + 1].nodes[v], t)
  {
    assert OfReign(run[k], steps[k], i, t) && Moves(cfg, run, steps, k);
    if steps[k].Deliver? {
      var e := run[k].sent[steps[k].k];
      NotToSelf(cfg, run, steps, k, e);
      assert e == Beat(e.dst, t, i) && Brings(run, steps, k, Beat(e.dst, t, i));
      if run[k].nodes[e.dst].failed {
        FailedIsDeaf(cfg, run, steps, k, e);
      } else if run[k].nodes[e.dst].term <= t {
        HeartbeatObeyed(cfg, run, steps, k, e.dst, t, i);
      } else {
        OldHeartbeatIgnored(cfg, run, steps, k, e.dst, t, i);
      }
    }
  }

  lemma NotToSelf(cfg: Config, run: seq<Cluster>, steps: seq<Step>, k: nat, e: Envelope)
    requires cfg.nodeNum >= 2 && IsPath(cfg, run, steps) && Reachable(cfg, run[0]) && k < |run| && e in run[k].sent
    ensures e.dst != e.pkt.nodeId && e.dst in run[k].nodes
  {
    ReachableInv(cfg, run[0]);
    RunInv(cfg, run, steps, k);
    assert PacketInv(run[k], e);
  }

  lemma {:induction false} ReignState(cfg: Config, run: seq<Cluster>, steps: seq<Step>, i: nat, t: nat, v: nat, k: nat)
    requires cfg.nodeNum >= 2 && IsReign(cfg, run, steps, i, t) && k <= |steps| && v in run[0].nodes
    ensures ReignAt(run, steps, i, t, v, k)
  {
    if k > 0 {
      ReignState(cfg, run, steps, i, t, v, k - 1);
      ReignStep(cfg, run, steps, i, t, v, k - 1);
      HeardNext(run, steps, i, t, v, k - 1);
    }
  }

  lemma HeardNext(run: seq<Cluster>, steps: seq<Step>, i: nat, t: nat, v: nat, k: nat)
    ensures Heard(run, steps, i, t, v, k + 1) <==> Heard(run, steps, i, t, v, k) || Brings(run, steps, k, Beat(v, t, i))
  {
  }

  lemma {:induction false} ReignKeys(cfg: Config, run: seq<Cluster>, steps: seq<Step>, k: nat)
    requires IsPath(cfg, run, steps) && k < |run|
    ensures run[k].nodes.Keys == run[0].nodes.Keys
  {
    if k > 0 {
      ReignKeys(cfg, run, steps, k - 1);
      assert Moves(cfg, run, steps, k - 1);
    }
  }

  /** Once the heartbeats of a leader reached every live peer, with nothing else in between, it still
      leads and every live node that is not in a newer term follows it: none of them is a candidate. */
  lemma ReignSettles(cfg: Config, run: seq<Cluster>, steps: seq<Step>, i: nat, t: nat)
    requires cfg.nodeNum >= 2 && IsReign(cfg, run, steps, i, t)
    requires forall v :: v in run[0].nodes && v != i && !run[0].nodes[v].failed ==> Heard(run, steps, i, t, v, |steps|)
    ensures Leads(run[|steps|], i, t) && run[|steps|].nodes.Keys == run[0].nodes.Keys
    ensures forall v :: v in run[|steps|].nodes && v != i
                        && !run[|steps|].nodes[v].failed && run[|steps|].nodes[v].term <= t
              ==> Follows(run[|steps|].nodes[v], t)
  {
    ReignKeys(cfg, run, steps, |steps|);
    ReignState(cfg, run, steps, i, t, i, |steps|);
    forall v | v in run[0].nodes && v != i
                 && !run[|steps|].nodes[v].failed && run[|steps|].nodes[v].term <= t
      ensures Follows(run[|steps|].nodes[v], t)
    {
      ReignState(cfg, run, steps, i, t, v, |steps|);
    }
  }

  // ---------- such a reign exists ----------

  ghost predicate HeardUpTo(run: seq<Cluster>, steps: seq<Step>, i: nat, t: nat, n: nat) {
    forall v :: 1 <= v <= n && v != i ==> Heard(run, steps, i, t, v, |steps|)
  }

  /** One more step at the end of a reign. */
  lemma Extend(cfg: Config, run: seq<Cluster>, steps: seq<Step>, i: nat, t: nat, st: Step)
    requires IsReign(cfg, run, steps, i, t) && Enabled(run[|steps|], st) && OfReign(run[|steps|], st, i, t)
    ensures IsReign(cfg, run + [Apply(cfg, run[|steps|], st)], steps + [st], i, t)
    ensures forall v :: Heard(run, steps, i, t, v, |steps|) ==>
      Heard(run + [Apply(cfg, run[|steps|], st)], steps + [st], i, t, v, |steps| + 1)
  {
    var run', steps' := run + [Apply(cfg, run[|steps|], st)], steps + [st];
    forall k | 0 <= k < |steps'| ensures Moves(cfg, run', steps', k) && OfReign(run'[k], steps'[k], i, t) {
      if k < |steps| {
        assert Moves(cfg, run, steps, k) && OfReign(run[k], steps[k], i, t);
        assert run'[k] == run[k] && run'[k + 1] == run[k + 1] && steps'[k] == steps[k];
      }
    }
    forall v | Heard(run, steps, i, t, v, |steps|) ensures Heard(run', steps', i, t, v, |steps| + 1) {
      var j :| 0 <= j < |steps| && Brings(run, steps, j, Beat(v, t, i));
      assert Brings(run', steps', j, Beat(v, t, i));
    }
  }

  /** A live leader's heartbeats can reach its peers 1..n one after another. */
  lemma {:induction false} ReignReaches(cfg: Config, c: Cluster, i: nat, t: nat, n: nat)
    returns (run: seq<Cluster>, steps: seq<Step>)
    requires cfg.nodeNum >= 2 && Reachable(cfg, c) && Leads(c, i, t) && !c.nodes[i].failed && n <= cfg.nodeNum
    ensures IsReign(cfg, run, steps, i, t) && run[0] == c && HeardUpTo(run, steps, i, t, n)
    ensures forall v :: 1 <= v <= cfg.nodeNum && v != i ==> Beat(v, t, i) in run[|steps|].sent
  {
    if n == 0 {
      run, steps := [c, Apply(cfg, c, HeartbeatTick(i))], [HeartbeatTick(i)];
      assert Moves(cfg, run, steps, 0) && IsReign(cfg, run, steps, i, t);
      TickSends(cfg, run, steps, 0, i);
      var out := run[1].sent[|run[0].sent|..];
      forall v | 1 <= v <= cfg.nodeNum && v != i ensures Beat(v, t, i) in run[1].sent {
        assert Beat(v, t, i) in out;
      }
    } else {
      run, steps := ReignReaches(cfg, c, i, t, n - 1);
      if n != i {
        var before, path, k := run, steps, |steps|;
        var last := run[k];
        assert Beat(n, t, i) in last.sent;
        var p :| 0 <= p < |last.sent| && last.sent[p] == Beat(n, t, i);
        NotToSelf(cfg, run, steps, k, Beat(n, t, i));
        Extend(cfg, run, steps, i, t, Deliver(p));
        run, steps := run + [Apply(cfg, last, Deliver(p))], steps + [Deliver(p)];
        assert Brings(run, steps, k, Beat(n, t, i)) && last.sent <= run[k + 1].sent;
        forall v | 1 <= v <= n && v != i ensures Heard(run, steps, i, t, v, |steps|) {
          if v < n {
            assert Heard(before, path, i, t, v, k);
          }
        }
      }
    }
  }

  /** From every reachable cluster a live leader can bring all live nodes behind it that are not in a
      newer term. */
  lemma LeaderCanSettle(cfg: Config, c: Cluster, i: nat, t: nat) returns (run: seq<Cluster>, steps: seq<Step>)
    requires cfg.nodeNum >= 2 && Reachable(cfg, c) && Leads(c, i, t) && !c.nodes[i].failed
    ensures IsReign(cfg, run, steps, i, t) && run[0] == c && Leads(run[|steps|], i, t)
    ensures forall v :: v in run[|steps|].nodes && v != i
                        && !run[|steps|].nodes[v].failed && run[|steps|].nodes[v].term <= t
              ==> Follows(run[|steps|].nodes[v], t)
  {
    run, steps := ReignReaches(cfg, c, i, t, cfg.nodeNum);
    Members(cfg, c);
    ReignSettles(cfg, run, steps, i, t);
  }

  lemma Members(cfg: Config, c: Cluster)
    requires cfg.nodeNum >= 2 && Reachable(cfg, c)
    ensures forall v :: v in c.nodes <==> 1 <= v <= cfg.nodeNum
  {
    ReachableInv(cfg, c);
  }
}
