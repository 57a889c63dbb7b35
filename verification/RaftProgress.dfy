/** An undisturbed election round completes, in whatever order its packets arrive. */
module RaftProgress {
  import opened RaftNode
  import opened RaftCluster
  import opened RaftInvariant

  /** The packets of the round that node i opens in term t. */
  predicate OfRound(e: Envelope, i: nat, t: nat) {
    (e.dst != i && e == Request(i, t, e.dst)) || CountsFor(e, i, t)
  }

  /** A reachable cluster in which nobody is failed, node i may stand, and no node is in a newer term than i. */
  ghost predicate MayOpen(cfg: Config, c: Cluster, i: nat) {
    && Reachable(cfg, c) && i in c.nodes && c.nodes[i].role != Leader
    && (forall v :: v in c.nodes ==> !c.nodes[v].failed && c.nodes[v].term <= c.nodes[i].term)
  }

  /** Step k delivers the packet `e`. */
  predicate Delivers(run: seq<Cluster>, steps: seq<Step>, k: nat, e: Envelope) {
    k < |steps| && k < |run| && steps[k].Deliver? && steps[k].k < |run[k].sent| && run[k].sent[steps[k].k] == e
  }

  predicate DeliversOfRound(c: Cluster, s: Step, i: nat, t: nat) {
    s.Deliver? && s.k < |c.sent| && OfRound(c.sent[s.k], i, t)
  }

  /** A path that opens with node i's timeout into term t and then only delivers packets of that
      round: late, lost, repeated or in any order. */
  ghost predicate IsRound(cfg: Config, run: seq<Cluster>, steps: seq<Step>, i: nat, t: nat) {
    && IsPath(cfg, run, steps) && MayOpen(cfg, run[0], i) && t == run[0].nodes[i].term + 1
    && |steps| > 0 && steps[0] == Timeout(i)
    && forall k :: 1 <= k < |steps| ==> DeliversOfRound(run[k], steps[k], i, t)
  }

  /** One of the first k steps delivered node v's request. */
  ghost predicate Asked(run: seq<Cluster>, steps: seq<Step>, i: nat, t: nat, v: nat, k: nat) {
    exists j :: 1 <= j < k && Delivers(run, steps, j, Request(i, t, v))
  }

  /** How many of the first k steps brought node i a response of its round. */
  function Answers(run: seq<Cluster>, steps: seq<Step>, i: nat, t: nat, k: nat): nat
    requires k <= |steps| < |run|
  {
    if k <= 1 then 0
    else Answers(run, steps, i, t, k - 1) + (if Answered(run, steps, i, t, k - 1) then 1 else 0)
  }

  predicate Answered(run: seq<Cluster>, steps: seq<Step>, i: nat, t: nat, k: nat)
    requires k < |steps| && k < |run|
  {
    steps[k].Deliver? && steps[k].k < |run[k].sent| && CountsFor(run[k].sent[steps[k].k], i, t)
  }

  predicate Backs(s: NodeState, i: nat, t: nat) {
    s.role == Follower && s.term == t && s.votedFor == i && !s.failed
  }

  /** Node i after `answers` responses. */
  predicate Stands(cfg: Config, s: NodeState, i: nat, t: nat, answers: nat) {
    && s.id == i && s.term == t && s.votedFor == i && !s.failed
    && if answers < cfg.nodeNum / 2 then s.role == Candidate && s.granted == 1 + answers
       else s.role == Leader && s.granted == cfg.nodeNum / 2 + 1
  }

  lemma Counted(cfg: Config, s: NodeState, p: Packet, t: nat, answers: nat)
    requires cfg.nodeNum >= 2 && Stands(cfg, s, s.id, t, answers) && p.msgType == VoteResponse && p.term == t
    ensures Stands(cfg, HandlePacket(cfg, s, p).state, s.id, t, answers + 1)
  {
  }

  lemma Granted(cfg: Config, s: NodeState, i: nat, t: nat)
    requires !s.failed && i > 0 && (s.term < t || Backs(s, i, t))
    ensures Backs(HandlePacket(cfg, s, Packet(VoteRequest, t, i)).state, i, t)
    ensures HandlePacket(cfg, s, Packet(VoteRequest, t, i)).out == [Response(s.id, t, i)]
  {
  }

  lemma ReachableNodes(cfg: Config, c: Cluster)
    requires cfg.nodeNum >= 2 && Reachable(cfg, c)
    ensures NodesInv(cfg, c)
  {
    ReachableInv(cfg, c);
  }

  // ---------- one delivery, on clusters alone ----------

  /** Node e.dst may take the round's packet `e`. */
  predicate Takes(cfg: Config, c: Cluster, e: Envelope, i: nat, t: nat, answers: nat) {
    && i in c.nodes && e.dst in c.nodes
    && Stands(cfg, c.nodes[i], i, t, answers)
    && OfRound(e, i, t)
    && (e.dst != i ==> !c.nodes[e.dst].failed && (c.nodes[e.dst].term < t || Backs(c.nodes[e.dst], i, t)))
  }

  /** What delivering `e` made of the cluster c. */
  predicate Took(cfg: Config, c: Cluster, e: Envelope, i: nat, t: nat, answers: nat, c': Cluster) {
    && c'.nodes.Keys == c.nodes.Keys
    && (forall j | j in c.nodes && j != e.dst :: c'.nodes[j] == c.nodes[j])
    && i in c'.nodes && Stands(cfg, c'.nodes[i], i, t, answers + (if CountsFor(e, i, t) then 1 else 0))
    && c.sent <= c'.sent
    && (e.dst != i ==>
          && e.dst in c'.nodes && Backs(c'.nodes[e.dst], i, t)
          && c'.sent == c.sent + [Response(e.dst, t, i)])
  }

  lemma DeliverInRound(cfg: Config, c: Cluster, k: nat, i: nat, t: nat, answers: nat)
    requires cfg.nodeNum >= 2 && Inv(cfg, c) && Enabled(c, Deliver(k)) && Takes(cfg, c, c.sent[k], i, t, answers)
    ensures Took(cfg, c, c.sent[k], i, t, answers, Apply(cfg, c, Deliver(k)))
  {
    var e := c.sent[k];
    if e.dst == i {
      Counted(cfg, c.nodes[i], e.pkt, t, answers);
    } else {
      Granted(cfg, c.nodes[e.dst], i, t);
    }
  }

  // ---------- the whole round ----------

  /** A node other than i backs i once asked, and before that is as it was. */
  ghost predicate Stays(run: seq<Cluster>, steps: seq<Step>, i: nat, t: nat, k: nat, v: nat)
    requires k < |run| && v in run[k].nodes && v in run[0].nodes
  {
    if Asked(run, steps, i, t, v, k) then Backs(run[k].nodes[v], i, t) else run[k].nodes[v] == run[0].nodes[v]
  }

  lemma OpenRound(cfg: Config, run: seq<Cluster>, steps: seq<Step>, i: nat, t: nat)
    requires cfg.nodeNum >= 2 && IsRound(cfg, run, steps, i, t)
    ensures run[1].nodes.Keys == run[0].nodes.Keys && Stands(cfg, run[1].nodes[i], i, t, 0)
    ensures forall v :: v in run[1].nodes && v != i ==> Stays(run, steps, i, t, 1, v)
    ensures forall v :: v in run[1].nodes && v != i ==> Request(i, t, v) in run[1].sent
  {
    assert Moves(cfg, run, steps, 0);
    ReachableInv(cfg, run[0]);
    BroadcastReaches(cfg.nodeNum, Packet(VoteRequest, t, i));
  }

  lemma TookInRound(cfg: Config, run: seq<Cluster>, steps: seq<Step>, i: nat, t: nat, k: nat)
    requires cfg.nodeNum >= 2 && IsRound(cfg, run, steps, i, t) && 1 <= k < |steps|
    requires RoundAt(cfg, run, steps, i, t, k)
    ensures DeliversOfRound(run[k], steps[k], i, t)
    ensures Took(cfg, run[k], run[k].sent[steps[k].k], i, t, Answers(run, steps, i, t, k), run[k + 1])
  {
    ReachableInv(cfg, run[0]);
    RunInv(cfg, run, steps, k);
    assert Moves(cfg, run, steps, k) && DeliversOfRound(run[k], steps[k], i, t);
    var e := run[k].sent[steps[k].k];
    assert e.dst != i ==> Stays(run, steps, i, t, k, e.dst);
    DeliverInRound(cfg, run[k], steps[k].k, i, t, Answers(run, steps, i, t, k));
  }

  lemma StaysOn(run: seq<Cluster>, steps: seq<Step>, i: nat, t: nat, k: nat, v: nat, e: Envelope, s: NodeState)
    requires 1 <= k < |steps| < |run|
    requires v in run[0].nodes && v in run[k].nodes && Stays(run, steps, i, t, k, v)
    requires v in run[k + 1].nodes && run[k + 1].nodes[v] == s
    requires Delivers(run, steps, k, e)
    requires if e == Request(i, t, v) then Backs(s, i, t) else s == run[k].nodes[v]
    ensures Stays(run, steps, i, t, k + 1, v)
  {
    assert Asked(run, steps, i, t, v, k + 1) <==> Asked(run, steps, i, t, v, k) || e == Request(i, t, v);
  }

  /** The exact state of the cluster after k steps of the round. */
  ghost predicate RoundAt(cfg: Config, run: seq<Cluster>, steps: seq<Step>, i: nat, t: nat, k: nat)
    requires k <= |steps| < |run|
  {
    && run[k].nodes.Keys == run[0].nodes.Keys
    && i in run[k].nodes && Stands(cfg, run[k].nodes[i], i, t, Answers(run, steps, i, t, k))
    && forall v :: v in run[k].nodes && v != i ==> Stays(run, steps, i, t, k, v)
  }

  lemma RoundNext(cfg: Config, run: seq<Cluster>, steps: seq<Step>, i: nat, t: nat, k: nat)
    requires cfg.nodeNum >= 2 && IsRound(cfg, run, steps, i, t) && 1 <= k < |steps| && RoundAt(cfg, run, steps, i, t, k)
    ensures RoundAt(cfg, run, steps, i, t, k + 1)
  {
    TookInRound(cfg, run, steps, i, t, k);
    var e := run[k].sent[steps[k].k];
    forall v | v in run[k].nodes && v != i ensures Stays(run, steps, i, t, k + 1, v) {
      StaysOn(run, steps, i, t, k, v, e, run[k + 1].nodes[v]);
    }
  }

  lemma {:induction false} RoundState(cfg: Config, run: seq<Cluster>, steps: seq<Step>, i: nat, t: nat, k: nat)
    requires cfg.nodeNum >= 2 && IsRound(cfg, run, steps, i, t) && 1 <= k <= |steps|
    ensures RoundAt(cfg, run, steps, i, t, k)
  {
    if k == 1 {
      OpenRound(cfg, run, steps, i, t);
    } else {
      RoundState(cfg, run, steps, i, t, k - 1);
      RoundNext(cfg, run, steps, i, t, k - 1);
    }
  }

  /** Once every request and half as many responses as nodes were delivered, node i leads and
      every other node follows it. */
  lemma RoundCompletes(cfg: Config, run: seq<Cluster>, steps: seq<Step>, i: nat, t: nat)
    requires cfg.nodeNum >= 2 && IsRound(cfg, run, steps, i, t)
    requires forall v :: v in run[0].nodes && v != i ==> Asked(run, steps, i, t, v, |steps|)
    requires Answers(run, steps, i, t, |steps|) >= cfg.nodeNum / 2
    ensures Leads(run[|steps|], i, t)
    ensures forall v :: v in run[|steps|].nodes && v != i ==> Backs(run[|steps|].nodes[v], i, t)
  {
    RoundState(cfg, run, steps, i, t, |steps|);
  }

  // ---------- such a round exists ----------

  lemma {:induction false} AnswersSame(run: seq<Cluster>, steps: seq<Step>, run': seq<Cluster>, steps': seq<Step>,
                                       i: nat, t: nat, k: nat)
    requires run <= run' && steps <= steps' && k <= |steps| < |run| && |steps'| < |run'|
    ensures Answers(run', steps', i, t, k) == Answers(run, steps, i, t, k)
  {
    if k > 1 {
      AnswersSame(run, steps, run', steps', i, t, k - 1);
    }
  }

  lemma AskedStays(run: seq<Cluster>, steps: seq<Step>, run': seq<Cluster>, steps': seq<Step>, i: nat, t: nat, v: nat)
    requires run <= run' && steps <= steps' && Asked(run, steps, i, t, v, |steps|)
    ensures Asked(run', steps', i, t, v, |steps'|)
  {
    var j :| 1 <= j < |steps| && Delivers(run, steps, j, Request(i, t, v));
    assert Delivers(run', steps', j, Request(i, t, v));
  }

  /** Deliver one more packet of the round. */
  lemma RoundStep(cfg: Config, run: seq<Cluster>, steps: seq<Step>, i: nat, t: nat, k: nat)
    returns (run': seq<Cluster>, steps': seq<Step>)
    requires cfg.nodeNum >= 2 && IsRound(cfg, run, steps, i, t)
    requires k < |run[|steps|].sent| && OfRound(run[|steps|].sent[k], i, t) && run[|steps|].sent[k].dst in run[|steps|].nodes
    ensures IsRound(cfg, run', steps', i, t) && run <= run' && |steps'| == |steps| + 1 && steps' == steps + [Deliver(k)]
  {
    run', steps' := run + [Apply(cfg, run[|steps|], Deliver(k))], steps + [Deliver(k)];
    forall j | 0 <= j < |steps'|
      ensures Moves(cfg, run', steps', j)
      ensures j >= 1 ==> DeliversOfRound(run'[j], steps'[j], i, t)
    {
      if j < |steps| {
        assert run'[j] == run[j] && run'[j + 1] == run[j + 1] && steps'[j] == steps[j];
        assert Moves(cfg, run, steps, j);
        assert j >= 1 ==> DeliversOfRound(run[j], steps[j], i, t);
      }
    }
  }

  /** The same, with what the delivery made of the cluster. */
  lemma RoundTakes(cfg: Config, run: seq<Cluster>, steps: seq<Step>, i: nat, t: nat, k: nat)
    returns (run': seq<Cluster>, steps': seq<Step>)
    requires cfg.nodeNum >= 2 && IsRound(cfg, run, steps, i, t)
    requires k < |run[|steps|].sent| && OfRound(run[|steps|].sent[k], i, t) && run[|steps|].sent[k].dst in run[|steps|].nodes
    ensures IsRound(cfg, run', steps', i, t) && run <= run' && steps <= steps' && |steps'| == |steps| + 1
    ensures Delivers(run', steps', |steps|, run[|steps|].sent[k])
    ensures Answers(run', steps', i, t, |steps'|) ==
            Answers(run, steps, i, t, |steps|) + (if CountsFor(run[|steps|].sent[k], i, t) then 1 else 0)
    ensures Took(cfg, run[|steps|], run[|steps|].sent[k], i, t, Answers(run, steps, i, t, |steps|), run'[|steps'|])
  {
    run', steps' := RoundStep(cfg, run, steps, i, t, k);
    RoundState(cfg, run', steps', i, t, |steps|);
    TookInRound(cfg, run', steps', i, t, |steps|);
    AnswersSame(run, steps, run', steps', i, t, |steps|);
  }

  /** Deliver node v's request, then the answer it sends. */
  lemma RoundExtend(cfg: Config, run: seq<Cluster>, steps: seq<Step>, i: nat, t: nat, v: nat)
    returns (run': seq<Cluster>, steps': seq<Step>)
    requires cfg.nodeNum >= 2 && IsRound(cfg, run, steps, i, t) && v in run[0].nodes && v != i
    requires Request(i, t, v) in run[|steps|].sent && run[|steps|].nodes.Keys == run[0].nodes.Keys
    ensures IsRound(cfg, run', steps', i, t) && run <= run' && steps <= steps' && |steps'| == |steps| + 2
    ensures Asked(run', steps', i, t, v, |steps'|)
    ensures Answers(run', steps', i, t, |steps'|) == Answers(run, steps, i, t, |steps|) + 1
    ensures run[|steps|].sent <= run'[|steps'|].sent && run'[|steps'|].nodes.Keys == run[0].nodes.Keys
  {
    var c := run[|steps|];
    var k :| 0 <= k < |c.sent| && c.sent[k] == Request(i, t, v);
    var r1, s1 := RoundTakes(cfg, run, steps, i, t, k);
    assert r1[|s1|].sent[|c.sent|] == Response(v, t, i);
    run', steps' := RoundTakes(cfg, r1, s1, i, t, |c.sent|);
    assert Delivers(run', steps', |steps|, Request(i, t, v));
  }

  lemma RoundOpens(cfg: Config, c: Cluster, i: nat, t: nat) returns (run: seq<Cluster>, steps: seq<Step>)
    requires cfg.nodeNum >= 2 && MayOpen(cfg, c, i) && t == c.nodes[i].term + 1
    ensures IsRound(cfg, run, steps, i, t) && run[0] == c && |steps| == 1
    ensures run[1].nodes.Keys == c.nodes.Keys
    ensures forall v :: v in c.nodes && v != i ==> Request(i, t, v) in run[1].sent
  {
    ReachableNodes(cfg, c);
    run, steps := [c, Apply(cfg, c, Timeout(i))], [Timeout(i)];
    OpenRound(cfg, run, steps, i, t);
  }

  /** Nodes 1..n, node i excepted, were asked and answered. */
  ghost predicate AskedUpTo(run: seq<Cluster>, steps: seq<Step>, i: nat, t: nat, n: nat) {
    && |steps| < |run|
    && (forall v :: 1 <= v <= n && v != i ==> Asked(run, steps, i, t, v, |steps|))
    && Answers(run, steps, i, t, |steps|) == (if 1 <= i <= n then n - 1 else n)
    && (forall v :: v in run[0].nodes && v != i ==> Request(i, t, v) in run[|steps|].sent)
  }

  lemma AskNext(cfg: Config, run: seq<Cluster>, steps: seq<Step>, i: nat, t: nat, n: nat)
    returns (run': seq<Cluster>, steps': seq<Step>)
    requires cfg.nodeNum >= 2 && IsRound(cfg, run, steps, i, t) && n in run[0].nodes && n > 0 && n != i
    requires AskedUpTo(run, steps, i, t, n - 1) && run[|steps|].nodes.Keys == run[0].nodes.Keys
    ensures IsRound(cfg, run', steps', i, t) && run <= run' && run'[|steps'|].nodes.Keys == run'[0].nodes.Keys
    ensures AskedUpTo(run', steps', i, t, n)
  {
    run', steps' := RoundExtend(cfg, run, steps, i, t, n);
    forall v | 1 <= v <= n - 1 && v != i ensures Asked(run', steps', i, t, v, |steps'|) {
      AskedStays(run, steps, run', steps', i, t, v);
    }
  }

  /** Nodes 1..n are asked and answer, one after another. */
  lemma {:induction false} RoundReaches(cfg: Config, c: Cluster, i: nat, t: nat, n: nat)
    returns (run: seq<Cluster>, steps: seq<Step>)
    requires cfg.nodeNum >= 2 && MayOpen(cfg, c, i) && n <= cfg.nodeNum && t == c.nodes[i].term + 1
    ensures IsRound(cfg, run, steps, i, t) && run[0] == c && run[|steps|].nodes.Keys == c.nodes.Keys
    ensures AskedUpTo(run, steps, i, t, n)
  {
    if n == 0 {
      run, steps := RoundOpens(cfg, c, i, t);
    } else {
      run, steps := RoundReaches(cfg, c, i, t, n - 1);
      ReachableNodes(cfg, c);
      if n != i {
        run, steps := AskNext(cfg, run, steps, i, t, n);
      }
    }
  }

  /** An election opened in the newest term, with no node failed, always has a way to complete. */
  lemma RoundCanComplete(cfg: Config, c: Cluster, i: nat) returns (run: seq<Cluster>, steps: seq<Step>)
    requires cfg.nodeNum >= 2 && MayOpen(cfg, c, i)
    ensures IsRound(cfg, run, steps, i, c.nodes[i].term + 1) && run[0] == c
    ensures Leads(run[|steps|], i, c.nodes[i].term + 1)
    ensures forall v :: v in run[|steps|].nodes && v != i ==> Backs(run[|steps|].nodes[v], i, c.nodes[i].term + 1)
  {
    ReachableNodes(cfg, c);
    run, steps := RoundReaches(cfg, c, i, c.nodes[i].term + 1, cfg.nodeNum);
    RoundCompletes(cfg, run, steps, i, c.nodes[i].term + 1);
  }
}
