/** A cluster of nodes 1..n over a network that may lose, duplicate, delay and reorder packets. */
module RaftCluster {
  import opened RaftNode

  /** `sent` holds every packet ever handed to the network; `delivered` the positions in `sent`
      that were delivered, in order; `counted` the responses that a candidate counted. */
  datatype Cluster = Cluster(
    nodes: map<nat, NodeState>, sent: seq<Envelope>, delivered: seq<nat>, counted: seq<Envelope>)

  datatype Step = Timeout(i: nat) | Deliver(k: nat) | HeartbeatTick(i: nat) | FailTimer(i: nat) | RecoverTimer(i: nat)

  function InitCluster(cfg: Config): Cluster {
    Cluster(map i: nat | 1 <= i <= cfg.nodeNum :: Init(i), [], [], [])
  }

  /** Loss is a packet that is never delivered; duplication is a position delivered twice. */
  predicate Enabled(c: Cluster, s: Step) {
    match s
    case Timeout(i) => i in c.nodes && c.nodes[i].timer
    case Deliver(k) => k < |c.sent| && c.sent[k].dst in c.nodes
    case HeartbeatTick(i) => i in c.nodes
    case FailTimer(i) => i in c.nodes && c.nodes[i].failTimer
    case RecoverTimer(i) => i in c.nodes && c.nodes[i].recoverTimer
  }

  function Receive(cfg: Config, c: Cluster, k: nat): Cluster
    requires Enabled(c, Deliver(k))
  {
    var e := c.sent[k];
    var s := c.nodes[e.dst];
    var r := HandlePacket(cfg, s, e.pkt);
    Cluster(c.nodes[e.dst := r.state], c.sent + r.out, c.delivered + [k],
            if Counts(s, e.pkt) then c.counted + [e] else c.counted)
  }

  function Apply(cfg: Config, c: Cluster, s: Step): Cluster
    requires Enabled(c, s)
  {
    match s
    case Timeout(i) =>
      var r := TimerFires(cfg, c.nodes[i]);
      c.(nodes := c.nodes[i := r.state], sent := c.sent + r.out)
    case Deliver(k) => Receive(cfg, c, k)
    case HeartbeatTick(i) => c.(sent := c.sent + SendHeartbeat(cfg, c.nodes[i]))
    case FailTimer(i) => c.(nodes := c.nodes[i := FailOn(c.nodes[i])])
    case RecoverTimer(i) => c.(nodes := c.nodes[i := FailOff(c.nodes[i])])
  }

  /** Step k leads from run[k] to run[k + 1]. */
  predicate Moves(cfg: Config, run: seq<Cluster>, steps: seq<Step>, k: nat)
    requires k < |steps| < |run|
  {
    Enabled(run[k], steps[k]) && run[k + 1] == Apply(cfg, run[k], steps[k])
  }

  /** `run` is the sequence of clusters that `steps` lead through from a cluster `run[0]`. */
  ghost predicate IsPath(cfg: Config, run: seq<Cluster>, steps: seq<Step>) {
    && |run| == |steps| + 1
    && forall k {:trigger Moves(cfg, run, steps, k)} :: 0 <= k < |steps| ==> Moves(cfg, run, steps, k)
  }

  ghost predicate IsRun(cfg: Config, run: seq<Cluster>, steps: seq<Step>) {
    IsPath(cfg, run, steps) && run[0] == InitCluster(cfg)
  }

  ghost predicate Reachable(cfg: Config, c: Cluster) {
    exists run, steps :: IsRun(cfg, run, steps) && run[|steps|] == c
  }

  ghost predicate Leads(c: Cluster, i: nat, t: nat) {
    i in c.nodes && c.nodes[i].role == Leader && c.nodes[i].term == t
  }

  /** Election Safety (section 5.2 of the Raft paper): at most one node is ever leader in a term. */
  ghost predicate ElectionSafety(run: seq<Cluster>) {
    forall j, k, a, b, t :: 0 <= j < |run| && 0 <= k < |run| && Leads(run[j], a, t) && Leads(run[k], b, t) ==> a == b
  }

  predicate Distinct<T(==)>(s: seq<T>) {
    forall i, j :: 0 <= i < j < |s| ==> s[i] != s[j]
  }

  /** No packet is delivered twice. */
  predicate AtMostOnce(c: Cluster) {
    Distinct(c.delivered)
  }

  /** No vote request reaches a node that is already in a newer term. */
  predicate Fresh(c: Cluster, s: Step) {
    s.Deliver? && Enabled(c, s) && c.sent[s.k].pkt.msgType == VoteRequest ==>
      c.nodes[c.sent[s.k].dst].term <= c.sent[s.k].pkt.term
  }

  ghost predicate NoStaleRequests(run: seq<Cluster>, steps: seq<Step>)
    requires |steps| < |run|
  {
    forall k :: 0 <= k < |steps| ==> Fresh(run[k], steps[k])
  }
}
