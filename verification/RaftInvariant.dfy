/** What every step of the election keeps, whatever the network does. */
module RaftInvariant {
  import opened RaftNode
  import opened RaftCluster

  predicate IsVote(e: Envelope) {
    e.pkt.msgType == VoteRequest || e.pkt.msgType == VoteResponse
  }

  /** A vote request carries its sender's vote for itself, a response the sender's vote for the addressee. */
  function Choice(e: Envelope): nat {
    if e.pkt.msgType == VoteRequest then e.pkt.nodeId else e.dst
  }

  function Peer(i: nat): nat { if i == 1 then 2 else 1 }

  /** The copy of node i's vote request (or heartbeat) of term t that went to one fixed peer. */
  function Sample(m: MsgType, t: nat, i: nat): Envelope { Envelope(Peer(i), Packet(m, t, i)) }

  predicate CountsFor(e: Envelope, i: nat, t: nat) {
    e.pkt.msgType == VoteResponse && e.dst == i && e.pkt.term == t
  }

  function CountFor(s: seq<Envelope>, i: nat, t: nat): nat {
    if s == [] then 0
    else CountFor(s[..|s| - 1], i, t) + (if CountsFor(s[|s| - 1], i, t) then 1 else 0)
  }

  /** The timer runs exactly on non-leaders, a non-follower voted for itself, a candidate is
      short of a majority, and a leader has exactly the smallest majority. */
  predicate NodeInv(cfg: Config, s: NodeState) {
    && (s.timer <==> s.role != Leader)
    && (s.role != Follower ==> s.votedFor == s.id && s.term >= 1)
    && (s.role == Candidate ==> 1 <= s.granted <= cfg.nodeNum / 2)
    && (s.role == Leader ==> s.granted == cfg.nodeNum / 2 + 1)
  }

  ghost predicate NodesInv(cfg: Config, c: Cluster) {
    && (forall i :: i in c.nodes <==> 1 <= i <= cfg.nodeNum)
    && (forall i :: i in c.nodes ==> c.nodes[i].id == i && NodeInv(cfg, c.nodes[i]))
  }

  /** Packets travel between two nodes of the cluster and never carry a term above their sender's. */
  predicate PacketInv(c: Cluster, e: Envelope) {
    && e.pkt.nodeId in c.nodes && e.dst in c.nodes && e.pkt.nodeId != e.dst
    && e.pkt.msgType != Unknown
    && 1 <= e.pkt.term <= c.nodes[e.pkt.nodeId].term
    && (IsVote(e) && e.pkt.term == c.nodes[e.pkt.nodeId].term ==> c.nodes[e.pkt.nodeId].votedFor == Choice(e))
  }

  ghost predicate PacketsInv(c: Cluster) {
    forall e :: e in c.sent ==> PacketInv(c, e)
  }

  predicate SameVote(e: Envelope, f: Envelope) {
    IsVote(e) && IsVote(f) && e.pkt.nodeId == f.pkt.nodeId && e.pkt.term == f.pkt.term ==> Choice(e) == Choice(f)
  }

  /** Each node names one candidate in each term, over everything it ever sent. */
  ghost predicate OneVote(c: Cluster) {
    forall e, f :: e in c.sent && f in c.sent ==> SameVote(e, f)
  }

  /** A non-follower announced its candidacy, and a leader its leadership, in its present term. */
  predicate Announced(c: Cluster, s: NodeState) {
    && (s.role != Follower ==> Sample(VoteRequest, s.term, s.id) in c.sent)
    && (s.role == Leader ==> Sample(Heartbeat, s.term, s.id) in c.sent)
  }

  /** A heartbeat's sender stood in that term and counted the responses of a majority. */
  ghost predicate Backed(cfg: Config, c: Cluster, e: Envelope) {
    e.pkt.msgType == Heartbeat ==>
      && Sample(VoteRequest, e.pkt.term, e.pkt.nodeId) in c.sent
      && CountFor(c.counted, e.pkt.nodeId, e.pkt.term) >= cfg.nodeNum / 2
  }

  ghost predicate AnnounceInv(cfg: Config, c: Cluster) {
    && (forall i :: i in c.nodes ==> Announced(c, c.nodes[i]))
    && (forall e :: e in c.sent ==> Backed(cfg, c, e))
  }

  /** Counted responses are genuine, and a candidate's tally is one more than those of its term. */
  ghost predicate CountInv(c: Cluster) {
    && (forall e :: e in c.counted ==>
          && e in c.sent && e.pkt.msgType == VoteResponse
          && e.dst in c.nodes && e.pkt.term <= c.nodes[e.dst].term)
    && (forall i :: i in c.nodes && c.nodes[i].role == Candidate ==>
          c.nodes[i].granted == 1 + CountFor(c.counted, i, c.nodes[i].term))
  }

  ghost predicate Inv(cfg: Config, c: Cluster) {
    NodesInv(cfg, c) && PacketsInv(c) && OneVote(c) && AnnounceInv(cfg, c) && CountInv(c)
  }

  lemma {:induction false} CountNone(s: seq<Envelope>, i: nat, t: nat)
    requires forall e :: e in s ==> !CountsFor(e, i, t)
    ensures CountFor(s, i, t) == 0
  {
    if s != [] {
      CountNone(s[..|s| - 1], i, t);
      assert s[|s| - 1] in s;
    }
  }

  lemma CountSnoc(s: seq<Envelope>, e: Envelope, i: nat, t: nat)
    ensures CountFor(s + [e], i, t) == CountFor(s, i, t) + (if CountsFor(e, i, t) then 1 else 0)
  {
    assert (s + [e])[..|s|] == s;
  }

  /** What one node did in one step, seen from outside the handler that ran. */
  ghost predicate Move(cfg: Config, s: NodeState, t: NodeState, out: seq<Envelope>) {
    && t.id == s.id && t.term >= s.term && NodeInv(cfg, t)
    && (t.term == s.term && s.votedFor != 0 ==> t.votedFor == s.votedFor)
    && (forall e :: e in out ==>
          && e.pkt.nodeId == s.id && e.dst != s.id && 1 <= e.dst <= cfg.nodeNum
          && e.pkt.term == t.term && t.term >= 1 && e.pkt.msgType != Unknown
          && (IsVote(e) ==> t.votedFor == Choice(e))
          && (e.pkt.msgType == Heartbeat ==> t.role == Leader))
  }

  lemma InitInv(cfg: Config)
    ensures Inv(cfg, InitCluster(cfg))
  {
  }

  lemma MoveTimeout(cfg: Config, s: NodeState)
    requires cfg.nodeNum >= 2 && 1 <= s.id <= cfg.nodeNum && NodeInv(cfg, s) && s.timer
    ensures var r := TimerFires(cfg, s);
      Move(cfg, s, r.state, r.out) && r.state.term == s.term + 1 && r.state.role == Candidate
      && Sample(VoteRequest, r.state.term, s.id) in r.out
  {
    BroadcastReaches(cfg.nodeNum, Packet(VoteRequest, s.term + 1, s.id));
  }

  lemma MoveHeartbeat(cfg: Config, s: NodeState)
    requires 1 <= s.id <= cfg.nodeNum && NodeInv(cfg, s)
    ensures Move(cfg, s, s, SendHeartbeat(cfg, s))
    ensures forall e :: e in SendHeartbeat(cfg, s) ==> e.pkt.msgType == Heartbeat && s.role == Leader
  {
    BroadcastReaches(cfg.nodeNum, Packet(Heartbeat, s.term, s.id));
  }

  /** What handling a packet may do to the role and the tally of a node. */
  ghost predicate Handled(cfg: Config, s: NodeState, p: Packet, t: NodeState, out: seq<Envelope>) {
    && Move(cfg, s, t, out)
    && (t.role == Candidate ==>
          && s.role == Candidate && t.term == s.term
          && t.granted == s.granted + (if Counts(s, p) then 1 else 0))
    && (t.role == Leader ==>
          && t.term == s.term
          && (s.role == Leader || (Completes(cfg, s, p) && Sample(Heartbeat, s.term, s.id) in out)))
    && (forall e :: e in out && e.pkt.msgType == Heartbeat ==> Completes(cfg, s, p))
  }

  /** The packet is the response that gives a candidate its majority. */
  predicate Completes(cfg: Config, s: NodeState, p: Packet) {
    Counts(s, p) && s.granted == cfg.nodeNum / 2
  }

  lemma HandledResponse(cfg: Config, s: NodeState, p: Packet)
    requires cfg.nodeNum >= 2 && 1 <= s.id <= cfg.nodeNum && NodeInv(cfg, s)
    requires p.msgType == VoteResponse && Counts(s, p)
    ensures var r := HandlePacket(cfg, s, p); Handled(cfg, s, p, r.state, r.out)
  {
    BroadcastReaches(cfg.nodeNum, Packet(Heartbeat, s.term, s.id));
  }

  lemma HandledRequest(cfg: Config, s: NodeState, p: Packet)
    requires NodeInv(cfg, s) && p.msgType == VoteRequest
    requires 1 <= p.nodeId <= cfg.nodeNum && p.nodeId != s.id && p.term >= 1
    ensures var r := HandlePacket(cfg, s, p); Handled(cfg, s, p, r.state, r.out)
  {
  }

  lemma HandledOther(cfg: Config, s: NodeState, p: Packet)
    requires NodeInv(cfg, s) && !Counts(s, p) && p.msgType != VoteRequest && p.term >= 1
    ensures var r := HandlePacket(cfg, s, p); Handled(cfg, s, p, r.state, r.out)
  {
    assert HandlePacket(cfg, s, p).out == [];
  }

  lemma HandledPacket(cfg: Config, s: NodeState, p: Packet)
    requires cfg.nodeNum >= 2 && 1 <= s.id <= cfg.nodeNum && NodeInv(cfg, s)
    requires 1 <= p.nodeId <= cfg.nodeNum && p.nodeId != s.id && p.term >= 1
    ensures var r := HandlePacket(cfg, s, p); Handled(cfg, s, p, r.state, r.out)
  {
    if Counts(s, p) {
      HandledResponse(cfg, s, p);
    } else if p.msgType == VoteRequest {
      HandledRequest(cfg, s, p);
    } else {
      HandledOther(cfg, s, p);
    }
  }

  /** One node moves, sends `out`, and the counted responses become `counted`. */
  lemma MoveKeepsPackets(cfg: Config, c: Cluster, i: nat, t: NodeState, out: seq<Envelope>, c': Cluster)
    requires NodesInv(cfg, c) && PacketsInv(c) && OneVote(c)
    requires i in c.nodes && Move(cfg, c.nodes[i], t, out)
    requires c'.nodes == c.nodes[i := t] && c'.sent == c.sent + out
    ensures NodesInv(cfg, c') && PacketsInv(c') && OneVote(c')
  {
    forall e | e in c'.sent ensures PacketInv(c', e) {
      if e in c.sent {
        assert PacketInv(c, e);
      }
    }
    forall e, f | e in c'.sent && f in c'.sent ensures SameVote(e, f) {
      if e in c.sent && f in c.sent {
        assert SameVote(e, f);
      } else {
        assert PacketInv(c', e) && PacketInv(c', f);
      }
    }
  }

  lemma TimeoutKeeps(cfg: Config, c: Cluster, i: nat)
    requires cfg.nodeNum >= 2 && Inv(cfg, c) && Enabled(c, Timeout(i))
    ensures Inv(cfg, Apply(cfg, c, Timeout(i)))
  {
    var s := c.nodes[i];
    var r := TimerFires(cfg, s);
    var c' := Apply(cfg, c, Timeout(i));
    MoveTimeout(cfg, s);
    MoveKeepsPackets(cfg, c, i, r.state, r.out, c');
    CountNone(c.counted, i, r.state.term);
    forall e | e in c'.sent ensures Backed(cfg, c', e) {
      if e in c.sent {
        assert Backed(cfg, c, e);
      }
    }
  }

  lemma HeartbeatKeeps(cfg: Config, c: Cluster, i: nat)
    requires Inv(cfg, c) && Enabled(c, HeartbeatTick(i))
    ensures Inv(cfg, Apply(cfg, c, HeartbeatTick(i)))
  {
    var s := c.nodes[i];
    var out := SendHeartbeat(cfg, s);
    var c' := Apply(cfg, c, HeartbeatTick(i));
    MoveHeartbeat(cfg, s);
    assert c'.nodes == c.nodes[i := s];
    MoveKeepsPackets(cfg, c, i, s, out, c');
    forall e | e in c'.sent ensures Backed(cfg, c', e) {
      if e in c.sent {
        assert Backed(cfg, c, e);
      } else {
        assert Announced(c, s) && Backed(cfg, c, Sample(Heartbeat, s.term, i));
      }
    }
  }

  /** `c'` is what the cluster becomes when node e.dst handles the packet of `e` by moving to `t`. */
  ghost predicate Received(cfg: Config, c: Cluster, e: Envelope, t: NodeState, out: seq<Envelope>, c': Cluster) {
    && e in c.sent && e.dst in c.nodes
    && Handled(cfg, c.nodes[e.dst], e.pkt, t, out)
    && c'.nodes == c.nodes[e.dst := t]
    && c'.sent == c.sent + out
    && c'.counted == if Counts(c.nodes[e.dst], e.pkt) then c.counted + [e] else c.counted
  }

  lemma ReceivedCounts(cfg: Config, c: Cluster, e: Envelope, t: NodeState, out: seq<Envelope>, c': Cluster,
                       i: nat, term: nat)
    requires Received(cfg, c, e, t, out, c')
    ensures CountFor(c'.counted, i, term) ==
            CountFor(c.counted, i, term) + (if Counts(c.nodes[e.dst], e.pkt) && i == e.dst && term == e.pkt.term then 1 else 0)
  {
    CountSnoc(c.counted, e, i, term);
  }

  lemma ReceivedCountInv(cfg: Config, c: Cluster, e: Envelope, t: NodeState, out: seq<Envelope>, c': Cluster)
    requires NodesInv(cfg, c) && CountInv(c) && Received(cfg, c, e, t, out, c')
    ensures CountInv(c')
  {
    forall i | i in c'.nodes && c'.nodes[i].role == Candidate
      ensures c'.nodes[i].granted == 1 + CountFor(c'.counted, i, c'.nodes[i].term)
    {
      ReceivedCounts(cfg, c, e, t, out, c', i, c'.nodes[i].term);
    }
    forall f | f in c'.counted
      ensures f in c'.sent && f.pkt.msgType == VoteResponse && f.dst in c'.nodes && f.pkt.term <= c'.nodes[f.dst].term
    {
      if f !in c.counted {
        assert f == e;
      }
    }
  }

  lemma ReceivedAnnounceInv(cfg: Config, c: Cluster, e: Envelope, t: NodeState, out: seq<Envelope>, c': Cluster)
    requires NodesInv(cfg, c) && AnnounceInv(cfg, c) && CountInv(c) && Received(cfg, c, e, t, out, c')
    ensures AnnounceInv(cfg, c')
  {
    var s := c.nodes[e.dst];
    assert Announced(c, s);
    forall f | f in c'.sent ensures Backed(cfg, c', f) {
      ReceivedCounts(cfg, c, e, t, out, c', f.pkt.nodeId, f.pkt.term);
      if f in c.sent {
        assert Backed(cfg, c, f);
      }
    }
    forall i | i in c'.nodes ensures Announced(c', c'.nodes[i]) {
      assert i != e.dst ==> Announced(c, c.nodes[i]);
    }
  }

  lemma ReceivedKeeps(cfg: Config, c: Cluster, e: Envelope, t: NodeState, out: seq<Envelope>, c': Cluster)
    requires Inv(cfg, c) && Received(cfg, c, e, t, out, c')
    ensures Inv(cfg, c')
  {
    MoveKeepsPackets(cfg, c, e.dst, t, out, c');
    ReceivedCountInv(cfg, c, e, t, out, c');
    ReceivedAnnounceInv(cfg, c, e, t, out, c');
  }

  lemma ReceiveKeeps(cfg: Config, c: Cluster, k: nat)
    requires cfg.nodeNum >= 2 && Inv(cfg, c) && Enabled(c, Deliver(k))
    ensures Inv(cfg, Receive(cfg, c, k))
  {
    var e := c.sent[k];
    assert PacketInv(c, e);
    HandledPacket(cfg, c.nodes[e.dst], e.pkt);
    var r := HandlePacket(cfg, c.nodes[e.dst], e.pkt);
    ReceivedKeeps(cfg, c, e, r.state, r.out, Receive(cfg, c, k));
  }

  lemma ApplyKeeps(cfg: Config, c: Cluster, st: Step)
    requires cfg.nodeNum >= 2 && Inv(cfg, c) && Enabled(c, st)
    ensures Inv(cfg, Apply(cfg, c, st))
  {
    match st
    case Timeout(i) => TimeoutKeeps(cfg, c, i);
    case Deliver(k) => ReceiveKeeps(cfg, c, k);
    case HeartbeatTick(i) => HeartbeatKeeps(cfg, c, i);
    case FailTimer(i) => FlagKeeps(cfg, c, i, FailOn(c.nodes[i]));
    case RecoverTimer(i) => FlagKeeps(cfg, c, i, FailOff(c.nodes[i]));
  }

  lemma FlagKeeps(cfg: Config, c: Cluster, i: nat, t: NodeState)
    requires Inv(cfg, c) && i in c.nodes
    requires t == FailOn(c.nodes[i]) || t == FailOff(c.nodes[i])
    ensures Inv(cfg, c.(nodes := c.nodes[i := t]))
  {
    var c' := c.(nodes := c.nodes[i := t]);
    assert c'.sent == c.sent + [];
    MoveKeepsPackets(cfg, c, i, t, [], c');
    FlagAnnounceInv(cfg, c, i, t, c');
  }

  lemma FlagAnnounceInv(cfg: Config, c: Cluster, i: nat, t: NodeState, c': Cluster)
    requires AnnounceInv(cfg, c) && CountInv(c) && i in c.nodes
    requires t == FailOn(c.nodes[i]) || t == FailOff(c.nodes[i])
    requires c' == c.(nodes := c.nodes[i := t])
    ensures AnnounceInv(cfg, c') && CountInv(c')
  {
    assert Announced(c, c.nodes[i]);
    forall e | e in c'.sent ensures Backed(cfg, c', e) {
      assert Backed(cfg, c, e);
    }
  }

  /** Every cluster of every run satisfies the invariant, auto-fail included. */
  lemma {:induction false} RunInv(cfg: Config, run: seq<Cluster>, steps: seq<Step>, k: nat)
    requires cfg.nodeNum >= 2 && IsPath(cfg, run, steps) && Inv(cfg, run[0]) && k < |run|
    ensures Inv(cfg, run[k])
  {
    if k > 0 {
      RunInv(cfg, run, steps, k - 1);
      assert Moves(cfg, run, steps, k - 1);
      ApplyKeeps(cfg, run[k - 1], steps[k - 1]);
    }
  }

  lemma ReachableInv(cfg: Config, c: Cluster)
    requires cfg.nodeNum >= 2 && Reachable(cfg, c)
    ensures Inv(cfg, c)
  {
    var run, steps :| IsRun(cfg, run, steps) && run[|steps|] == c;
    InitInv(cfg);
    RunInv(cfg, run, steps, |steps|);
  }
}
