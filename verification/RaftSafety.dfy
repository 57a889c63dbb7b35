/** Election Safety, over whole runs: when it holds, and what it gives. */
module RaftSafety {
  import opened RaftNode
  import opened RaftCluster
  import opened RaftInvariant

  // ---------- quorums ----------

  function Ids(n: nat): (r: set<nat>)
    ensures forall i :: i in r <==> 1 <= i <= n
    ensures |r| == n
  {
    if n == 0 then {} else Ids(n - 1) + {n}
  }

  /** Two majorities of the same cluster share a node. */
  lemma QuorumsMeet(n: nat, a: set<nat>, b: set<nat>) returns (v: nat)
    requires a <= Ids(n) && b <= Ids(n) && |a| > n / 2 && |b| > n / 2
    ensures v in a && v in b
  {
    if a * b == {} {
      assert |a + b| == |a| + |b|;
      assert a + b <= Ids(n);
      SubsetSize(a + b, Ids(n));
      assert false;
    }
    v :| v in a * b;
  }

  lemma {:induction false} SubsetSize(a: set<nat>, b: set<nat>)
    requires a <= b
    ensures |a| <= |b|
  {
    if a != {} {
      var x :| x in a;
      SubsetSize(a - {x}, b - {x});
    }
  }

  /** The distinct voters whose responses node i counted in term t. */
  function Voters(s: seq<Envelope>, i: nat, t: nat): set<nat> {
    set e | e in s && CountsFor(e, i, t) :: e.pkt.nodeId
  }

  /** Without repetitions, the tally is the number of distinct voters. */
  lemma {:induction false} VotersCount(s: seq<Envelope>, i: nat, t: nat)
    requires Distinct(s)
    ensures |Voters(s, i, t)| == CountFor(s, i, t)
  {
    if s != [] {
      var r, e := s[..|s| - 1], s[|s| - 1];
      VotersCount(r, i, t);
      assert s == r + [e];
      if CountsFor(e, i, t) {
        assert Voters(s, i, t) == Voters(r, i, t) + {e.pkt.nodeId};
        forall f | f in r && CountsFor(f, i, t) ensures f.pkt.nodeId != e.pkt.nodeId {
          assert f != e;
        }
      } else {
        assert Voters(s, i, t) == Voters(r, i, t);
      }
    }
  }

  /** Node v gave its vote of term t to node i. */
  ghost predicate Voted(c: Cluster, v: nat, i: nat, t: nat) {
    exists e :: e in c.sent && IsVote(e) && e.pkt.nodeId == v && e.pkt.term == t && Choice(e) == i
  }

  lemma VotedOnce(cfg: Config, c: Cluster, v: nat, a: nat, b: nat, t: nat)
    requires Inv(cfg, c) && Voted(c, v, a, t) && Voted(c, v, b, t)
    ensures a == b
  {
    var e :| e in c.sent && IsVote(e) && e.pkt.nodeId == v && e.pkt.term == t && Choice(e) == a;
    var f :| f in c.sent && IsVote(f) && f.pkt.nodeId == v && f.pkt.term == t && Choice(f) == b;
    assert SameVote(e, f);
  }

  /** A node that announced leadership stood in that term, and each response it counted is a vote. */
  lemma BallotsAreVotes(cfg: Config, c: Cluster, i: nat, t: nat)
    requires Inv(cfg, c) && Sample(Heartbeat, t, i) in c.sent
    ensures i in c.nodes && Voted(c, i, i, t) && CountFor(c.counted, i, t) >= cfg.nodeNum / 2
    ensures forall v :: v in Voters(c.counted, i, t) ==> v in c.nodes && v != i && Voted(c, v, i, t)
  {
    assert Backed(cfg, c, Sample(Heartbeat, t, i)) && PacketInv(c, Sample(Heartbeat, t, i));
    assert Choice(Sample(VoteRequest, t, i)) == i;
    forall v | v in Voters(c.counted, i, t) ensures v in c.nodes && v != i && Voted(c, v, i, t) {
      var e :| e in c.counted && CountsFor(e, i, t) && e.pkt.nodeId == v;
      assert PacketInv(c, e);
    }
  }

  // ---------- one cluster: at most one announced leader per term ----------

  /** A leader that counted no voter twice has the votes of a majority. */
  lemma Electorate(cfg: Config, c: Cluster, i: nat, t: nat) returns (q: set<nat>)
    requires Inv(cfg, c) && Distinct(c.counted) && Sample(Heartbeat, t, i) in c.sent
    ensures q <= Ids(cfg.nodeNum) && |q| > cfg.nodeNum / 2
    ensures forall v :: v in q ==> Voted(c, v, i, t)
  {
    BallotsAreVotes(cfg, c, i, t);
    VotersCount(c.counted, i, t);
    q := Voters(c.counted, i, t) + {i};
  }

  lemma OneLeaderIfDistinct(cfg: Config, c: Cluster, a: nat, b: nat, t: nat)
    requires Inv(cfg, c) && Distinct(c.counted)
    requires Sample(Heartbeat, t, a) in c.sent && Sample(Heartbeat, t, b) in c.sent
    ensures a == b
  {
    var p := Electorate(cfg, c, a, t);
    var q := Electorate(cfg, c, b, t);
    var v := QuorumsMeet(cfg.nodeNum, p, q);
    VotedOnce(cfg, c, v, a, b, t);
  }

  lemma {:induction false} SomeVoter(s: seq<Envelope>, i: nat, t: nat)
    requires CountFor(s, i, t) > 0
    ensures Voters(s, i, t) != {}
  {
    var e := s[|s| - 1];
    if CountsFor(e, i, t) {
      assert e.pkt.nodeId in Voters(s, i, t);
    } else {
      SomeVoter(s[..|s| - 1], i, t);
      var v :| v in Voters(s[..|s| - 1], i, t);
      assert v in Voters(s, i, t);
    }
  }

  lemma SomeBallot(cfg: Config, c: Cluster, i: nat, t: nat) returns (v: nat)
    requires cfg.nodeNum >= 2 && Inv(cfg, c) && Sample(Heartbeat, t, i) in c.sent
    ensures i in c.nodes && Voted(c, i, i, t)
    ensures v in c.nodes && v != i && Voted(c, v, i, t)
  {
    BallotsAreVotes(cfg, c, i, t);
    SomeVoter(c.counted, i, t);
    v :| v in Voters(c.counted, i, t);
  }

  /** With two or three nodes one counted response is enough, and only one node can give it. */
  lemma OneLeaderIfSmall(cfg: Config, c: Cluster, a: nat, b: nat, t: nat)
    requires 2 <= cfg.nodeNum <= 3 && Inv(cfg, c)
    requires Sample(Heartbeat, t, a) in c.sent && Sample(Heartbeat, t, b) in c.sent
    ensures a == b
  {
    var v := SomeBallot(cfg, c, a, t);
    var w := SomeBallot(cfg, c, b, t);
    if v == b {
      VotedOnce(cfg, c, b, a, b, t);
    } else if w == a {
      VotedOnce(cfg, c, a, a, b, t);
    } else if v == w {
      VotedOnce(cfg, c, v, a, b, t);
    }
  }

  // ---------- runs ----------

  lemma {:induction false} HistoryGrows(cfg: Config, run: seq<Cluster>, steps: seq<Step>, j: nat, k: nat)
    requires IsPath(cfg, run, steps) && j <= k < |run|
    ensures run[j].sent <= run[k].sent && run[j].counted <= run[k].counted && run[j].delivered <= run[k].delivered
    decreases k - j
  {
    if j < k {
      HistoryGrows(cfg, run, steps, j, k - 1);
      assert Moves(cfg, run, steps, k - 1);
    }
  }

  lemma RunInvariant(cfg: Config, run: seq<Cluster>, steps: seq<Step>, k: nat)
    requires cfg.nodeNum >= 2 && IsRun(cfg, run, steps) && k < |run|
    ensures Inv(cfg, run[k])
  {
    InitInv(cfg);
    RunInv(cfg, run, steps, k);
  }

  /** One vote per node and term: whatever was lost, repeated or reordered, all the votes a node ever
      sent in a term, its own candidacy included, name one candidate. */
  lemma OneVotePerTerm(cfg: Config, run: seq<Cluster>, steps: seq<Step>, k: nat, e: Envelope, f: Envelope)
    requires cfg.nodeNum >= 2 && IsRun(cfg, run, steps) && k < |run|
    requires e in run[k].sent && f in run[k].sent && IsVote(e) && IsVote(f)
    requires e.pkt.nodeId == f.pkt.nodeId && e.pkt.term == f.pkt.term
    ensures Choice(e) == Choice(f)
  {
    RunInvariant(cfg, run, steps, k);
    assert SameVote(e, f);
  }

  lemma HandlerTerms(cfg: Config, s: NodeState, p: Packet)
    ensures HandlePacket(cfg, s, p).state.term >= s.term
  {
  }

  lemma StepTerms(cfg: Config, c: Cluster, st: Step, i: nat)
    requires Enabled(c, st) && i in c.nodes
    ensures i in Apply(cfg, c, st).nodes && c.nodes[i].term <= Apply(cfg, c, st).nodes[i].term
  {
    if st.Deliver? {
      HandlerTerms(cfg, c.nodes[c.sent[st.k].dst], c.sent[st.k].pkt);
    }
  }

  /** Terms never decrease. */
  lemma {:induction false} TermsGrow(cfg: Config, run: seq<Cluster>, steps: seq<Step>, j: nat, k: nat, i: nat)
    requires IsPath(cfg, run, steps) && j <= k < |run| && i in run[j].nodes
    ensures i in run[k].nodes && run[j].nodes[i].term <= run[k].nodes[i].term
    decreases k - j
  {
    if j < k {
      TermsGrow(cfg, run, steps, j, k - 1, i);
      assert Moves(cfg, run, steps, k - 1);
      StepTerms(cfg, run[k - 1], steps[k - 1], i);
    }
  }

  /** No packet carries a term its sender has not reached. */
  lemma TermsAreReached(cfg: Config, run: seq<Cluster>, steps: seq<Step>, k: nat, e: Envelope)
    requires cfg.nodeNum >= 2 && IsRun(cfg, run, steps) && k < |run| && e in run[k].sent
    ensures e.pkt.nodeId in run[k].nodes && e.pkt.term <= run[k].nodes[e.pkt.nodeId].term
  {
    RunInvariant(cfg, run, steps, k);
    assert PacketInv(run[k], e);
  }

  /** In every cluster of every run, auto-fail included: the timer runs exactly on non-leaders, a
      non-follower voted for itself, a candidate's tally is one more than the responses of its term
      that it counted and short of a majority, and a leader's is the smallest majority. */
  lemma NodeStateInv(cfg: Config, run: seq<Cluster>, steps: seq<Step>, k: nat, i: nat)
    requires cfg.nodeNum >= 2 && IsRun(cfg, run, steps) && k < |run| && 1 <= i <= cfg.nodeNum
    ensures i in run[k].nodes
    ensures var s := run[k].nodes[i];
      && (s.timer <==> s.role != Leader)
      && (s.role != Follower ==> s.votedFor == i)
      && (s.role == Candidate ==> s.granted == 1 + CountFor(run[k].counted, i, s.term) <= cfg.nodeNum / 2)
      && (s.role == Leader ==> s.granted == cfg.nodeNum / 2 + 1 <= cfg.nodeNum)
  {
    RunInvariant(cfg, run, steps, k);
  }

  /** Whoever was ever leader in term t is on record in the packets sent by the end of the run. */
  lemma LeadersOnRecord(cfg: Config, run: seq<Cluster>, steps: seq<Step>, j: nat, a: nat, t: nat)
    requires cfg.nodeNum >= 2 && IsRun(cfg, run, steps) && j < |run| && Leads(run[j], a, t)
    ensures Sample(Heartbeat, t, a) in run[|steps|].sent
  {
    RunInvariant(cfg, run, steps, j);
    assert Announced(run[j], run[j].nodes[a]);
    HistoryGrows(cfg, run, steps, j, |steps|);
  }

  /** Election Safety: no term ever has two leaders if no candidate counts the same voter's
      response of the same term twice. */
  lemma SafeIfCountedOnce(cfg: Config, run: seq<Cluster>, steps: seq<Step>)
    requires cfg.nodeNum >= 2 && IsRun(cfg, run, steps) && Distinct(run[|steps|].counted)
    ensures ElectionSafety(run)
  {
    RunInvariant(cfg, run, steps, |steps|);
    forall j, k, a, b, t | 0 <= j < |run| && 0 <= k < |run| && Leads(run[j], a, t) && Leads(run[k], b, t)
      ensures a == b
    {
      LeadersOnRecord(cfg, run, steps, j, a, t);
      LeadersOnRecord(cfg, run, steps, k, b, t);
      OneLeaderIfDistinct(cfg, run[|steps|], a, b, t);
    }
  }

  /** Two- and three-node clusters are safe on any network. */
  lemma SafeIfSmall(cfg: Config, run: seq<Cluster>, steps: seq<Step>)
    requires 2 <= cfg.nodeNum <= 3 && IsRun(cfg, run, steps)
    ensures ElectionSafety(run)
  {
    RunInvariant(cfg, run, steps, |steps|);
    forall j, k, a, b, t | 0 <= j < |run| && 0 <= k < |run| && Leads(run[j], a, t) && Leads(run[k], b, t)
      ensures a == b
    {
      LeadersOnRecord(cfg, run, steps, j, a, t);
      LeadersOnRecord(cfg, run, steps, k, b, t);
      OneLeaderIfSmall(cfg, run[|steps|], a, b, t);
    }
  }

  // ---------- discharging the premise from the network ----------

  /** The request that the response `e` answers, had it been answered in its own term. */
  function RequestOf(e: Envelope): Envelope {
    Request(e.dst, e.pkt.term, e.pkt.nodeId)
  }

  ghost predicate WasDelivered(c: Cluster, e: Envelope) {
    exists k :: k in c.delivered && k < |c.sent| && c.sent[k] == e
  }

  ghost predicate UniqueVotes(s: seq<Envelope>) {
    forall p, q :: 0 <= p < q < |s| && IsVote(s[p]) ==> s[p] != s[q]
  }

  /** No vote is sent twice, each response answers a delivered request, no response is counted twice. */
  ghost predicate FreshInv(c: Cluster) {
    && UniqueVotes(c.sent)
    && (forall e :: e in c.sent && e.pkt.msgType == VoteResponse ==> WasDelivered(c, RequestOf(e)))
    && (forall e :: e in c.counted ==> WasDelivered(c, e))
    && Distinct(c.counted)
  }

  lemma UniqueAppend(s: seq<Envelope>, out: seq<Envelope>)
    requires UniqueVotes(s) && UniqueVotes(out)
    requires forall e :: e in s && e in out ==> !IsVote(e)
    ensures UniqueVotes(s + out)
  {
    var w := s + out;
    forall p, q | 0 <= p < q < |w| && IsVote(w[p]) ensures w[p] != w[q] {
      if p < |s| <= q {
        assert w[p] in s && w[q] in out;
      } else if |s| <= p {
        assert w[p] == out[p - |s|] && w[q] == out[q - |s|];
      }
    }
  }

  lemma DeliveredStays(c: Cluster, c': Cluster, e: Envelope)
    requires WasDelivered(c, e) && c.sent <= c'.sent && c.delivered <= c'.delivered
    ensures WasDelivered(c', e)
  {
    var k :| k in c.delivered && k < |c.sent| && c.sent[k] == e;
    assert k in c'.delivered && c'.sent[k] == e;
  }

  /** A delivered vote is the one now being delivered only if its position is delivered again. */
  lemma NotDeliveredYet(c: Cluster, k: nat)
    requires k < |c.sent| && IsVote(c.sent[k]) && UniqueVotes(c.sent) && Distinct(c.delivered + [k])
    ensures !WasDelivered(c, c.sent[k])
  {
    var d := c.delivered + [k];
    forall p | 0 <= p < |c.delivered| ensures c.delivered[p] != k {
      assert d[p] == c.delivered[p] && d[|c.delivered|] == k;
    }
  }

  /** A timeout sends requests of a term its node never used, one to each peer. */
  lemma TimeoutKeepsFresh(cfg: Config, c: Cluster, i: nat)
    requires Inv(cfg, c) && FreshInv(c) && Enabled(c, Timeout(i))
    ensures FreshInv(Apply(cfg, c, Timeout(i)))
  {
    var out := TimerFires(cfg, c.nodes[i]).out;
    var c' := Apply(cfg, c, Timeout(i));
    var pkt := Packet(VoteRequest, c.nodes[i].term + 1, i);
    BroadcastReaches(cfg.nodeNum, pkt);
    assert out == [] || out == Broadcast(cfg.nodeNum, pkt);
    forall e | e in out ensures e !in c.sent {
      assert e in c.sent ==> PacketInv(c, e);
    }
    UniqueAppend(c.sent, out);
    QuietStep(c, c');
  }

  /** A step that delivers and counts nothing keeps the delivery records. */
  lemma QuietStep(c: Cluster, c': Cluster)
    requires FreshInv(c) && UniqueVotes(c'.sent) && c.sent <= c'.sent
    requires c'.delivered == c.delivered && c'.counted == c.counted
    requires forall e :: e in c'.sent && e !in c.sent ==> e.pkt.msgType != VoteResponse
    ensures FreshInv(c')
  {
    forall e | WasDelivered(c, e) ensures WasDelivered(c', e) {
      DeliveredStays(c, c', e);
    }
  }

  lemma TickKeepsFresh(cfg: Config, c: Cluster, i: nat)
    requires Inv(cfg, c) && FreshInv(c) && i in c.nodes
    ensures FreshInv(Apply(cfg, c, HeartbeatTick(i)))
  {
    var out := SendHeartbeat(cfg, c.nodes[i]);
    MoveHeartbeat(cfg, c.nodes[i]);
    forall p, q | 0 <= p < q < |out| ensures IsVote(out[p]) ==> out[p] != out[q] {
      assert out[p] in out;
    }
    UniqueAppend(c.sent, out);
    QuietStep(c, Apply(cfg, c, HeartbeatTick(i)));
  }

  /** A node answers at most once, and a fresh request in the request's own term. */
  lemma AnswerShape(cfg: Config, s: NodeState, p: Packet)
    requires p.msgType == VoteRequest ==> s.term <= p.term
    ensures var out := HandlePacket(cfg, s, p).out;
      if p.msgType == VoteRequest then
        out == [] || out == [Response(s.id, p.term, p.nodeId)]
      else forall e :: e in out ==> e.pkt.msgType == Heartbeat
  {
    BroadcastReaches(cfg.nodeNum, Packet(Heartbeat, s.term, s.id));
  }

  lemma ReceiveKeepsFresh(cfg: Config, c: Cluster, k: nat)
    requires Inv(cfg, c) && FreshInv(c) && Enabled(c, Deliver(k))
    requires Fresh(c, Deliver(k)) && AtMostOnce(Apply(cfg, c, Deliver(k)))
    ensures FreshInv(Apply(cfg, c, Deliver(k)))
  {
    var e := c.sent[k];
    var c' := Apply(cfg, c, Deliver(k));
    var out := HandlePacket(cfg, c.nodes[e.dst], e.pkt).out;
    assert PacketInv(c, e);
    AnswerShape(cfg, c.nodes[e.dst], e.pkt);
    if IsVote(e) {
      NotDeliveredYet(c, k);
    }
    FreshSent(c, e, out);
    assert c'.delivered[|c.delivered|] == k && c'.sent[k] == e;
    assert k in c'.delivered;
    assert WasDelivered(c', e);
    FreshRecords(c, e, out, c');
  }

  /** The answer to a request not delivered before was not sent before. */
  lemma FreshSent(c: Cluster, e: Envelope, out: seq<Envelope>)
    requires FreshInv(c) && (IsVote(e) ==> !WasDelivered(c, e))
    requires if e.pkt.msgType == VoteRequest then
               out == [] || out == [Response(e.dst, e.pkt.term, e.pkt.nodeId)]
             else forall f :: f in out ==> f.pkt.msgType == Heartbeat
    ensures UniqueVotes(c.sent + out)
  {
    forall f | f in out && IsVote(f) ensures f !in c.sent {
      assert RequestOf(f) == e;
    }
    forall p, q | 0 <= p < q < |out| ensures IsVote(out[p]) ==> out[p] != out[q] {
      assert out[p] in out;
    }
    UniqueAppend(c.sent, out);
  }

  lemma FreshRecords(c: Cluster, e: Envelope, out: seq<Envelope>, c': Cluster)
    requires FreshInv(c) && (IsVote(e) ==> !WasDelivered(c, e)) && WasDelivered(c', e)
    requires if e.pkt.msgType == VoteRequest then
               out == [] || out == [Response(e.dst, e.pkt.term, e.pkt.nodeId)]
             else forall f :: f in out ==> f.pkt.msgType == Heartbeat
    requires c'.sent == c.sent + out && UniqueVotes(c'.sent) && c.delivered <= c'.delivered
    requires c'.counted == c.counted || (e.pkt.msgType == VoteResponse && c'.counted == c.counted + [e])
    ensures FreshInv(c')
  {
    forall f | WasDelivered(c, f) ensures WasDelivered(c', f) {
      DeliveredStays(c, c', f);
    }
    forall f | f in c'.sent && f.pkt.msgType == VoteResponse ensures WasDelivered(c', RequestOf(f)) {
      if f !in c.sent {
        assert RequestOf(f) == e;
      }
    }
    forall i, j | 0 <= i < j < |c'.counted| ensures c'.counted[i] != c'.counted[j] {
      assert c'.counted[i] in c.counted;
    }
  }

  lemma {:induction false} FreshRun(cfg: Config, run: seq<Cluster>, steps: seq<Step>, k: nat)
    requires cfg.nodeNum >= 2 && IsRun(cfg, run, steps) && k < |run|
    requires AtMostOnce(run[|steps|]) && NoStaleRequests(run, steps)
    ensures FreshInv(run[k])
  {
    if k > 0 {
      FreshRun(cfg, run, steps, k - 1);
      RunInvariant(cfg, run, steps, k - 1);
      HistoryGrows(cfg, run, steps, k, |steps|);
      assert AtMostOnce(run[k]);
      assert Fresh(run[k - 1], steps[k - 1]) && Moves(cfg, run, steps, k - 1);
      var c := run[k - 1];
      match steps[k - 1]
      case Timeout(i) => TimeoutKeepsFresh(cfg, c, i);
      case Deliver(j) => ReceiveKeepsFresh(cfg, c, j);
      case HeartbeatTick(i) => TickKeepsFresh(cfg, c, i);
      case FailTimer(i) => QuietStep(c, run[k]);
      case RecoverTimer(i) => QuietStep(c, run[k]);
    }
  }

  /** Election Safety from the network alone: no duplicate deliveries and no stale requests. */
  lemma SafeIfFresh(cfg: Config, run: seq<Cluster>, steps: seq<Step>)
    requires cfg.nodeNum >= 2 && IsRun(cfg, run, steps)
    requires AtMostOnce(run[|steps|]) && NoStaleRequests(run, steps)
    ensures Distinct(run[|steps|].counted) && ElectionSafety(run)
  {
    FreshRun(cfg, run, steps, |steps|);
    SafeIfCountedOnce(cfg, run, steps);
  }

  // ---------- authority of heartbeats and stability of leaders ----------

  /** Packet number p of the run was sent by the step that led to run[j]. */
  predicate SentAt(run: seq<Cluster>, p: nat, j: nat) {
    0 < j < |run| && |run[j - 1].sent| <= p < |run[j].sent|
  }

  lemma StepHeartbeats(cfg: Config, c: Cluster, st: Step, p: nat)
    requires cfg.nodeNum >= 2 && Inv(cfg, c) && Enabled(c, st)
    requires |c.sent| <= p < |Apply(cfg, c, st).sent|
    ensures var e := Apply(cfg, c, st).sent[p];
      e.pkt.msgType == Heartbeat ==> Leads(Apply(cfg, c, st), e.pkt.nodeId, e.pkt.term)
  {
    var c' := Apply(cfg, c, st);
    var e := c'.sent[p];
    match st
    case Timeout(i) =>
      MoveTimeout(cfg, c.nodes[i]);
      assert e in TimerFires(cfg, c.nodes[i]).out;
    case Deliver(k) =>
      assert PacketInv(c, c.sent[k]);
      HandledPacket(cfg, c.nodes[c.sent[k].dst], c.sent[k].pkt);
      assert e in HandlePacket(cfg, c.nodes[c.sent[k].dst], c.sent[k].pkt).out;
    case HeartbeatTick(i) =>
      MoveHeartbeat(cfg, c.nodes[i]);
      assert e in SendHeartbeat(cfg, c.nodes[i]);
    case FailTimer(i) =>
    case RecoverTimer(i) =>
  }

  /** Every heartbeat on the wire was sent by a step after which its sender was leader of its term. */
  lemma {:induction false} HeartbeatAuthority(cfg: Config, run: seq<Cluster>, steps: seq<Step>, k: nat, p: nat)
    returns (j: nat)
    requires cfg.nodeNum >= 2 && IsRun(cfg, run, steps) && k < |run| && p < |run[k].sent|
    requires run[k].sent[p].pkt.msgType == Heartbeat
    ensures j <= k && SentAt(run, p, j) && Leads(run[j], run[k].sent[p].pkt.nodeId, run[k].sent[p].pkt.term)
  {
    assert k > 0;
    assert Moves(cfg, run, steps, k - 1);
    if p < |run[k - 1].sent| {
      HistoryGrows(cfg, run, steps, k - 1, k);
      j := HeartbeatAuthority(cfg, run, steps, k - 1, p);
    } else {
      j := k;
      RunInvariant(cfg, run, steps, k - 1);
      StepHeartbeats(cfg, run[k - 1], steps[k - 1], p);
    }
  }

  /** In a safe run all heartbeats of a term carry one id. */
  lemma OneHeartbeatAuthor(cfg: Config, run: seq<Cluster>, steps: seq<Step>, k: nat, e: Envelope, f: Envelope)
    requires cfg.nodeNum >= 2 && IsRun(cfg, run, steps) && ElectionSafety(run) && k < |run|
    requires e in run[k].sent && f in run[k].sent
    requires e.pkt.msgType == Heartbeat && f.pkt.msgType == Heartbeat && e.pkt.term == f.pkt.term
    ensures e.pkt.nodeId == f.pkt.nodeId
  {
    var p :| 0 <= p < |run[k].sent| && run[k].sent[p] == e;
    var q :| 0 <= q < |run[k].sent| && run[k].sent[q] == f;
    var i := HeartbeatAuthority(cfg, run, steps, k, p);
    var j := HeartbeatAuthority(cfg, run, steps, k, q);
  }

  /** A live handler takes leadership away only for a newer term, or for a heartbeat of its own term. */
  lemma LeaderYields(cfg: Config, s: NodeState, p: Packet)
    requires s.role == Leader && p.term <= s.term
    requires p.msgType == Heartbeat ==> p.term < s.term
    ensures HandlePacket(cfg, s, p).state == s
  {
  }

  /** In a safe run a leader of term t stops leading only by handling a packet of a newer term. */
  lemma LeaderStability(cfg: Config, run: seq<Cluster>, steps: seq<Step>, k: nat, i: nat, t: nat)
    requires cfg.nodeNum >= 2 && IsRun(cfg, run, steps) && ElectionSafety(run) && k < |steps|
    requires Leads(run[k], i, t) && !Leads(run[k + 1], i, t)
    ensures steps[k].Deliver? && steps[k].k < |run[k].sent|
    ensures var e := run[k].sent[steps[k].k];
      e.dst == i && e.pkt.term > t && !run[k].nodes[i].failed
  {
    var c := run[k];
    RunInvariant(cfg, run, steps, k);
    assert Moves(cfg, run, steps, k);
    match steps[k]
    case Timeout(j) =>
    case Deliver(p) =>
      var e := c.sent[p];
      assert PacketInv(c, e);
      if e.dst == i && e.pkt.term <= t {
        if e.pkt.msgType == Heartbeat && e.pkt.term == t {
          var j := HeartbeatAuthority(cfg, run, steps, k, p);
          assert false;
        }
        LeaderYields(cfg, c.nodes[i], e.pkt);
      }
    case HeartbeatTick(j) =>
    case FailTimer(j) =>
    case RecoverTimer(j) =>
  }
}
