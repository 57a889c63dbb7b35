/** Exactly which clusters elect safely on exactly which networks: constructions of unsafe runs,
    and the equivalence that closes the gap with RaftSafety. */
module RaftExact {
  import opened RaftNode
  import opened RaftCluster
  import opened RaftInvariant
  import opened RaftSafety

  /** What the network may do beyond losing, delaying and reordering packets. */
  datatype Network = Network(duplicates: bool, staleRequests: bool)

  ghost predicate Obeys(cfg: Config, net: Network, run: seq<Cluster>, steps: seq<Step>)
    requires IsPath(cfg, run, steps)
  {
    && (net.duplicates || AtMostOnce(run[|steps|]))
    && (net.staleRequests || NoStaleRequests(run, steps))
  }

  ghost predicate SafeOn(cfg: Config, net: Network) {
    forall run, steps :: IsRun(cfg, run, steps) && Obeys(cfg, net, run, steps) ==> ElectionSafety(run)
  }

  ghost predicate ReachableOn(cfg: Config, net: Network, c: Cluster) {
    && (forall d :: d in c.delivered ==> d < |c.sent|)
    && exists run, steps :: IsRun(cfg, run, steps) && Obeys(cfg, net, run, steps) && run[|steps|] == c
  }

  lemma ReachInit(cfg: Config, net: Network)
    ensures ReachableOn(cfg, net, InitCluster(cfg))
  {
    var run, steps: seq<Step> := [InitCluster(cfg)], [];
    assert IsRun(cfg, run, steps) && Obeys(cfg, net, run, steps);
  }

  lemma ReachStep(cfg: Config, net: Network, c: Cluster, s: Step)
    requires ReachableOn(cfg, net, c) && Enabled(c, s)
    requires net.staleRequests || Fresh(c, s)
    requires net.duplicates || !s.Deliver? || s.k !in c.delivered
    ensures ReachableOn(cfg, net, Apply(cfg, c, s))
  {
    var run, steps :| IsRun(cfg, run, steps) && Obeys(cfg, net, run, steps) && run[|steps|] == c;
    var run', steps' := run + [Apply(cfg, c, s)], steps + [s];
    forall k | 0 <= k < |steps'|
      ensures Moves(cfg, run', steps', k)
      ensures net.staleRequests || Fresh(run'[k], steps'[k])
    {
      if k < |steps| {
        assert run'[k] == run[k] && run'[k + 1] == run[k + 1] && steps'[k] == steps[k];
        assert Moves(cfg, run, steps, k) && (net.staleRequests || Fresh(run[k], steps[k]));
      }
    }
    assert IsRun(cfg, run', steps') && Obeys(cfg, net, run', steps');
  }

  lemma TwoLeadersUnsafe(cfg: Config, net: Network, c: Cluster, a: nat, b: nat, t: nat)
    requires ReachableOn(cfg, net, c) && Leads(c, a, t) && Leads(c, b, t) && a != b
    ensures !SafeOn(cfg, net)
  {
    var run, steps :| IsRun(cfg, run, steps) && Obeys(cfg, net, run, steps) && run[|steps|] == c;
    assert Leads(run[|steps|], a, t) && Leads(run[|steps|], b, t);
  }

  // ---------- states of the nodes that take part ----------

  function Standing(i: nat, t: nat, g: nat): NodeState {
    NodeState(i, t, i, g, Candidate, true, false, false, false)
  }

  function Backer(v: nat, t: nat, i: nat): NodeState {
    NodeState(v, t, i, 0, Follower, true, false, false, false)
  }

  /** The cluster c' differs from c only at nodes i and v, and delivered nothing to other nodes. */
  ghost predicate OnlyBetween(c: Cluster, c': Cluster, i: nat, v: nat) {
    && c'.nodes.Keys == c.nodes.Keys
    && (forall j :: j in c.nodes && j != i && j != v ==> c'.nodes[j] == c.nodes[j])
    && c.sent <= c'.sent
    && (forall e: Envelope :: e.dst != i && e.dst != v && WasDelivered(c', e) ==> WasDelivered(c, e))
  }

  /** Node i times out m times in a row: a request of every term up to m is under way to every peer. */
  lemma {:induction false} Campaign(cfg: Config, net: Network, c: Cluster, i: nat, m: nat) returns (c': Cluster)
    requires ReachableOn(cfg, net, c) && i in c.nodes && c.nodes[i] == Init(i) && m > 0
    ensures ReachableOn(cfg, net, c') && c'.nodes == c.nodes[i := Standing(i, m, 1)]
    ensures c.sent <= c'.sent && c'.delivered == c.delivered
    ensures forall t, v :: 1 <= t <= m && 1 <= v <= cfg.nodeNum && v != i ==> Request(i, t, v) in c'.sent
  {
    var b := c;
    if m > 1 {
      b := Campaign(cfg, net, c, i, m - 1);
    }
    ReachStep(cfg, net, b, Timeout(i));
    BroadcastReaches(cfg.nodeNum, Packet(VoteRequest, m, i));
    c' := Apply(cfg, b, Timeout(i));
  }

  // ---------- one voter elects a candidate ----------

  /** Node v, which has not met term t, gets a request of term t and votes for it. */
  lemma FirstGrant(cfg: Config, net: Network, c: Cluster, i: nat, v: nat, t: nat, k: nat) returns (c': Cluster)
    requires ReachableOn(cfg, net, c) && v in c.nodes && c.nodes[v] == Init(v) && t > 0 && i > 0
    requires k < |c.sent| && c.sent[k] == Request(i, t, v) && !WasDelivered(c, c.sent[k])
    ensures c' == Cluster(c.nodes[v := Backer(v, t, i)], c.sent + [Response(v, t, i)], c.delivered + [k], c.counted)
    ensures ReachableOn(cfg, net, c')
  {
    ReachStep(cfg, net, c, Deliver(k));
    c' := Apply(cfg, c, Deliver(k));
  }

  /** Node v is already in term t and backs i: an old request makes it send its vote once more. */
  lemma GrantAgain(cfg: Config, net: Network, c: Cluster, i: nat, v: nat, t: nat, u: nat, k: nat) returns (c': Cluster)
    requires ReachableOn(cfg, net, c) && net.staleRequests
    requires v in c.nodes && c.nodes[v] == Backer(v, t, i) && u <= t && i > 0
    requires k < |c.sent| && c.sent[k] == Request(i, u, v) && !WasDelivered(c, c.sent[k])
    ensures c' == Cluster(c.nodes[v := Backer(v, t, i)], c.sent + [Response(v, t, i)], c.delivered + [k], c.counted)
    ensures ReachableOn(cfg, net, c')
  {
    ReachStep(cfg, net, c, Deliver(k));
    c' := Apply(cfg, c, Deliver(k));
  }

  /** A standing candidate counts one more response; with enough of them it leads. */
  lemma Tally(cfg: Config, net: Network, c: Cluster, i: nat, v: nat, t: nat, g: nat, k: nat) returns (c': Cluster)
    requires ReachableOn(cfg, net, c) && i in c.nodes && c.nodes[i] == Standing(i, t, g) && g <= cfg.nodeNum / 2
    requires k < |c.sent| && c.sent[k] == Response(v, t, i) && (net.duplicates || k !in c.delivered)
    ensures ReachableOn(cfg, net, c') && c.sent <= c'.sent && c'.delivered == c.delivered + [k]
    ensures c'.nodes.Keys == c.nodes.Keys && forall j :: j in c.nodes && j != i ==> c'.nodes[j] == c.nodes[j]
    ensures if g < cfg.nodeNum / 2 then c'.nodes[i] == Standing(i, t, g + 1) else Leads(c', i, t)
  {
    ReachStep(cfg, net, c, Deliver(k));
    c' := Apply(cfg, c, Deliver(k));
  }

  lemma DeliveredGrows(c: Cluster, c': Cluster, k: nat, e: Envelope)
    requires forall d :: d in c.delivered ==> d < |c.sent|
    requires c.sent <= c'.sent && k < |c'.sent| && c'.delivered == c.delivered + [k]
    requires WasDelivered(c', e)
    ensures WasDelivered(c, e) || e == c'.sent[k]
  {
    var d :| d in c'.delivered && d < |c'.sent| && c'.sent[d] == e;
    assert d == k || d in c.delivered;
  }

  /** The same response delivered over and over elects node i. */
  lemma {:induction false} DuplicatesElect(cfg: Config, net: Network, c: Cluster, i: nat, v: nat, t: nat, g: nat, k: nat)
    returns (c': Cluster)
    requires net.duplicates && ReachableOn(cfg, net, c)
    requires i in c.nodes && c.nodes[i] == Standing(i, t, g) && g <= cfg.nodeNum / 2
    requires k < |c.sent| && c.sent[k] == Response(v, t, i)
    ensures ReachableOn(cfg, net, c') && Leads(c', i, t) && OnlyBetween(c, c', i, i)
    decreases cfg.nodeNum / 2 - g
  {
    c' := Tally(cfg, net, c, i, v, t, g, k);
    if g < cfg.nodeNum / 2 {
      c' := DuplicatesElect(cfg, net, c', i, v, t, g + 1, k);
    }
  }

  /** Old requests, newest first, each make v vote again: the answers to terms t, t-1, .., 1 elect node i. */
  lemma {:induction false} StaleRequestsElect(cfg: Config, net: Network, c: Cluster, i: nat, v: nat, m: nat, t: nat)
    returns (c': Cluster)
    requires net.staleRequests && ReachableOn(cfg, net, c)
    requires m == cfg.nodeNum / 2 && 1 <= t <= m && i > 0 && i != v && i in c.nodes && v in c.nodes
    requires c.nodes[i] == Standing(i, m, 1 + m - t)
    requires c.nodes[v] == if t == m then Init(v) else Backer(v, m, i)
    requires forall u :: 1 <= u <= t ==> Request(i, u, v) in c.sent && !WasDelivered(c, Request(i, u, v))
    ensures ReachableOn(cfg, net, c') && Leads(c', i, m) && OnlyBetween(c, c', i, v)
    decreases t
  {
    assert Request(i, t, v) in c.sent;
    var k :| 0 <= k < |c.sent| && c.sent[k] == Request(i, t, v);
    var a: Cluster;
    if t == m {
      a := FirstGrant(cfg, net, c, i, v, m, k);
    } else {
      a := GrantAgain(cfg, net, c, i, v, m, t, k);
    }
    c' := Tally(cfg, net, a, i, v, m, 1 + m - t, |c.sent|);
    forall e | WasDelivered(c', e) ensures WasDelivered(c, e) || e == Request(i, t, v) || e.dst == i {
      DeliveredGrows(a, c', |c.sent|, e);
      if WasDelivered(a, e) {
        DeliveredGrows(c, a, k, e);
      }
    }
    if t > 1 {
      forall u | 1 <= u <= t - 1 ensures Request(i, u, v) in c'.sent && !WasDelivered(c', Request(i, u, v)) {
        var p :| 0 <= p < |c.sent| && c.sent[p] == Request(i, u, v);
        assert c'.sent[p] == a.sent[p] == Request(i, u, v);
      }
      c' := StaleRequestsElect(cfg, net, c', i, v, m, t - 1);
    }
  }

  // ---------- two leaders ----------

  lemma TwoCampaigns(cfg: Config, net: Network, m: nat) returns (c: Cluster)
    requires cfg.nodeNum >= 4 && m > 0
    ensures ReachableOn(cfg, net, c) && c.delivered == []
    ensures c.nodes == InitCluster(cfg).nodes[1 := Standing(1, m, 1)][2 := Standing(2, m, 1)]
    ensures forall t :: 1 <= t <= m ==> Request(1, t, 3) in c.sent && Request(2, t, 4) in c.sent
  {
    ReachInit(cfg, net);
    var b := Campaign(cfg, net, InitCluster(cfg), 1, m);
    c := Campaign(cfg, net, b, 2, m);
    forall t | 1 <= t <= m ensures Request(1, t, 3) in c.sent && Request(2, t, 4) in c.sent {
      assert Request(1, t, 3) in b.sent;
    }
  }

  /** Four or more nodes, every packet delivered at most once, but old requests may arrive late. */
  lemma StaleRequestsUnsafe(cfg: Config, net: Network)
    requires cfg.nodeNum >= 4 && net.staleRequests
    ensures !SafeOn(cfg, net)
  {
    var m := cfg.nodeNum / 2;
    var a := TwoCampaigns(cfg, net, m);
    var b := StaleRequestsElect(cfg, net, a, 1, 3, m, m);
    var c := StaleRequestsElect(cfg, net, b, 2, 4, m, m);
    TwoLeadersUnsafe(cfg, net, c, 1, 2, m);
  }

  /** Four or more nodes, no stale request, but a packet may be delivered again. */
  lemma DuplicatesUnsafe(cfg: Config, net: Network)
    requires cfg.nodeNum >= 4 && net.duplicates
    ensures !SafeOn(cfg, net)
  {
    var a := TwoCampaigns(cfg, net, 1);
    assert Request(1, 1, 3) in a.sent && Request(2, 1, 4) in a.sent;
    var k :| 0 <= k < |a.sent| && a.sent[k] == Request(1, 1, 3);
    var l :| 0 <= l < |a.sent| && a.sent[l] == Request(2, 1, 4);
    var b := FirstGrant(cfg, net, a, 1, 3, 1, k);
    assert b.sent[l] == Request(2, 1, 4);
    var c := FirstGrant(cfg, net, b, 2, 4, 1, l);
    var d := DuplicatesElect(cfg, net, c, 1, 3, 1, 1, |a.sent|);
    var e := DuplicatesElect(cfg, net, d, 2, 4, 1, 1, |a.sent| + 1);
    TwoLeadersUnsafe(cfg, net, e, 1, 2, 1);
  }

  // ---------- a cluster of one ----------

  /** A lone node never gets a response, so it never leads. */
  lemma {:induction false} LoneNode(cfg: Config, run: seq<Cluster>, steps: seq<Step>, k: nat)
    requires cfg.nodeNum <= 1 && IsRun(cfg, run, steps) && k < |run|
    ensures run[k].sent == [] && run[k].nodes.Keys <= {1}
    ensures forall i :: i in run[k].nodes ==> run[k].nodes[i].role != Leader && run[k].nodes[i].id == 1
  {
    if k > 0 {
      LoneNode(cfg, run, steps, k - 1);
      assert Moves(cfg, run, steps, k - 1);
      forall p: Packet | p.nodeId == 1 ensures Broadcast(cfg.nodeNum, p) == [] {
        assert cfg.nodeNum == 1 ==> Broadcast(0, p) == [];
      }
    }
  }

  /** Election Safety holds in every run exactly when the cluster has at most three nodes, or the
      network neither duplicates packets nor delivers a request below its receiver's term. */
  lemma SafetyExactly(cfg: Config, net: Network)
    ensures SafeOn(cfg, net) <==> cfg.nodeNum <= 3 || (!net.duplicates && !net.staleRequests)
  {
    if cfg.nodeNum <= 3 || (!net.duplicates && !net.staleRequests) {
      forall run, steps | IsRun(cfg, run, steps) && Obeys(cfg, net, run, steps) ensures ElectionSafety(run) {
        if cfg.nodeNum <= 1 {
          forall k | 0 <= k < |run| ensures forall i, t :: !Leads(run[k], i, t) {
            LoneNode(cfg, run, steps, k);
          }
        } else if cfg.nodeNum <= 3 {
          SafeIfSmall(cfg, run, steps);
        } else {
          SafeIfFresh(cfg, run, steps);
        }
      }
    } else if net.duplicates {
      DuplicatesUnsafe(cfg, net);
    } else {
      StaleRequestsUnsafe(cfg, net);
    }
  }
}
