/** One node of the Raft election: the handlers of app/raft/election.c.
    The functions give the meaning of each handler on a snapshot of the node; the class
    keeps the fields of raft_node_t and updates them in place, as the C file does. */
module RaftNode {

  datatype MsgType = VoteRequest | VoteResponse | Heartbeat | Unknown

  datatype Packet = Packet(msgType: MsgType, term: nat, nodeId: nat)

  /** A packet handed to send_raft_packet; its sender is pkt.nodeId. */
  datatype Envelope = Envelope(dst: nat, pkt: Packet)

  /** Node i asks node v for its vote in term t. */
  function Request(i: nat, t: nat, v: nat): Envelope { Envelope(v, Packet(VoteRequest, t, i)) }

  /** Node v answers node i from term t. */
  function Response(v: nat, t: nat, i: nat): Envelope { Envelope(i, Packet(VoteResponse, t, v)) }

  datatype Role = Follower | Candidate | Leader

  datatype Config = Config(nodeNum: nat, testAutoFail: bool)

  /** raft_node_t, the auto-fail flag, and which timers are armed. */
  datatype NodeState = NodeState(
    id: nat, term: nat, votedFor: nat, granted: nat, role: Role,
    timer: bool, failed: bool, failTimer: bool, recoverTimer: bool)

  datatype Outcome = Outcome(state: NodeState, out: seq<Envelope>)

  /** Every peer 1..n except the sender, in increasing order. */
  function Broadcast(n: nat, pkt: Packet): seq<Envelope> {
    if n == 0 then []
    else Broadcast(n - 1, pkt) + (if n == pkt.nodeId then [] else [Envelope(n, pkt)])
  }

  function Init(id: nat): NodeState {
    NodeState(id, 0, 0, 0, Follower, true, false, false, false)
  }

  function StartElection(cfg: Config, s: NodeState): Outcome {
    var s' := s.(role := Candidate, term := s.term + 1, votedFor := s.id, granted := 1, timer := true);
    Outcome(s', Broadcast(cfg.nodeNum, Packet(VoteRequest, s'.term, s.id)))
  }

  /** The timer is single-shot, so firing disarms it; a leader ignores the callback. */
  function TimerFires(cfg: Config, s: NodeState): Outcome {
    var fired := s.(timer := false);
    if s.role == Leader then Outcome(fired, []) else StartElection(cfg, fired)
  }

  function SendHeartbeat(cfg: Config, s: NodeState): seq<Envelope> {
    if s.role != Leader || s.failed then []
    else Broadcast(cfg.nodeNum, Packet(Heartbeat, s.term, s.id))
  }

  /** A packet of a newer term makes any node a follower of that term with no vote cast. */
  function ObserveTerm(s: NodeState, p: Packet): NodeState {
    if p.term > s.term then s.(term := p.term, role := Follower, votedFor := 0, timer := true) else s
  }

  predicate Grants(s: NodeState, p: Packet) {
    s.role == Follower && (s.votedFor == 0 || s.votedFor == p.nodeId)
  }

  function OnVoteRequest(s: NodeState, p: Packet): Outcome {
    if Grants(s, p) then
      Outcome(s.(votedFor := p.nodeId, timer := true),
              [Response(s.id, s.term, p.nodeId)])
    else Outcome(s, [])
  }

  /** The response is counted: the node is a live candidate of the response's term. */
  predicate Counts(s: NodeState, p: Packet) {
    !s.failed && p.msgType == VoteResponse && s.role == Candidate && p.term == s.term
  }

  function OnVoteResponse(cfg: Config, s: NodeState, p: Packet): Outcome {
    if !Counts(s, p) then Outcome(s, [])
    else if s.granted + 1 <= cfg.nodeNum / 2 then Outcome(s.(granted := s.granted + 1), [])
    else
      var elected := s.(granted := s.granted + 1, role := Leader);
      Outcome(elected.(granted := if elected.granted > cfg.nodeNum then cfg.nodeNum else elected.granted,
                       timer := false, failTimer := elected.failTimer || cfg.testAutoFail),
              SendHeartbeat(cfg, elected))
  }

  function OnHeartbeat(s: NodeState, p: Packet): Outcome {
    Outcome(if p.term >= s.term then s.(role := Follower, term := p.term, timer := true) else s, [])
  }

  function HandlePacket(cfg: Config, s: NodeState, p: Packet): Outcome {
    if s.failed then Outcome(s, []) else
    var t := ObserveTerm(s, p);
    match p.msgType
    case VoteRequest => OnVoteRequest(t, p)
    case VoteResponse => OnVoteResponse(cfg, t, p)
    case Heartbeat => OnHeartbeat(t, p)
    case Unknown => Outcome(t, [])
  }

  function FailOn(s: NodeState): NodeState {
    s.(failed := true, failTimer := false, recoverTimer := true)
  }

  function FailOff(s: NodeState): NodeState {
    s.(failed := false, recoverTimer := false)
  }

  /** A broadcast reaches every peer, and each of them once. */
  lemma {:induction false} BroadcastReaches(n: nat, pkt: Packet)
    ensures forall e :: e in Broadcast(n, pkt) <==> e.pkt == pkt && 1 <= e.dst <= n && e.dst != pkt.nodeId
    ensures forall i, j :: 0 <= i < j < |Broadcast(n, pkt)| ==> Broadcast(n, pkt)[i].dst < Broadcast(n, pkt)[j].dst
  {
    if n > 0 {
      BroadcastReaches(n - 1, pkt);
      assert n != pkt.nodeId ==> Broadcast(n, pkt)[|Broadcast(n, pkt)| - 1] == Envelope(n, pkt);
      forall i, j | 0 <= i < j < |Broadcast(n, pkt)|
        ensures Broadcast(n, pkt)[i].dst < Broadcast(n, pkt)[j].dst
      {
        assert Broadcast(n - 1, pkt)[i] in Broadcast(n - 1, pkt);
      }
    }
  }

  class Node {
    const nodeNum: nat
    const testAutoFail: bool
    const selfId: nat
    var currentTerm: nat
    var votedFor: nat
    var voteGranted: nat
    var currentState: Role
    var electionTimer: bool
    var testAutoFailEnabled: bool
    var failTimer: bool
    var recoverTimer: bool
    /** Everything handed to send_raft_packet so far. */
    var sent: seq<Envelope>

    function Cfg(): Config { Config(nodeNum, testAutoFail) }

    function State(): NodeState
      reads this
    {
      NodeState(selfId, currentTerm, votedFor, voteGranted, currentState,
                electionTimer, testAutoFailEnabled, failTimer, recoverTimer)
    }

    constructor (id: nat, nodeNum: nat, testAutoFail: bool)
      ensures State() == Init(id) && sent == []
      ensures Cfg() == Config(nodeNum, testAutoFail)
    {
      this.nodeNum, this.testAutoFail, selfId := nodeNum, testAutoFail, id;
      currentState, currentTerm, votedFor, voteGranted := Follower, 0, 0, 0;
      testAutoFailEnabled, failTimer, recoverTimer := false, false, false;
      electionTimer := true;
      sent := [];
    }

    method BroadcastRaftPacket(pkt: Packet)
      requires pkt.nodeId == selfId
      modifies this`sent
      ensures sent == old(sent) + Broadcast(nodeNum, pkt)
    {
      var peer := 1;
      while peer <= nodeNum
        invariant 1 <= peer <= nodeNum + 1
        invariant sent == old(sent) + Broadcast(peer - 1, pkt)
      {
        if peer != selfId {
          sent := sent + [Envelope(peer, pkt)];
        }
        peer := peer + 1;
      }
    }

    method RunElection()
      modifies this
      ensures State() == StartElection(Cfg(), old(State())).state
      ensures sent == old(sent) + StartElection(Cfg(), old(State())).out
    {
      currentState := Candidate;
      currentTerm := currentTerm + 1;
      votedFor := selfId;
      voteGranted := 1;
      BroadcastRaftPacket(Packet(VoteRequest, currentTerm, selfId));
      electionTimer := true;
    }

    method ElectionTimeoutCb()
      modifies this
      ensures State() == TimerFires(Cfg(), old(State())).state
      ensures sent == old(sent) + TimerFires(Cfg(), old(State())).out
    {
      electionTimer := false;
      if currentState != Leader {
        RunElection();
      }
    }

    method RaftSendHeartbeat()
      modifies this`sent
      ensures sent == old(sent) + SendHeartbeat(Cfg(), State())
    {
      if currentState != Leader || testAutoFailEnabled {
        return;
      }
      BroadcastRaftPacket(Packet(Heartbeat, currentTerm, selfId));
    }

    method RaftHandlePacket(pkt: Packet)
      modifies this
      ensures State() == HandlePacket(Cfg(), old(State()), pkt).state
      ensures sent == old(sent) + HandlePacket(Cfg(), old(State()), pkt).out
    {
      if testAutoFailEnabled {
        return;
      }
      if pkt.term > currentTerm {
        currentTerm := pkt.term;
        currentState := Follower;
        votedFor := 0;
        electionTimer := true;
      }
      match pkt.msgType {
        case VoteRequest =>
          if currentState == Follower && (votedFor == 0 || votedFor == pkt.nodeId) {
            votedFor := pkt.nodeId;
            electionTimer := true;
            sent := sent + [Envelope(pkt.nodeId, Packet(VoteResponse, currentTerm, selfId))];
          }
        case VoteResponse =>
          if currentState == Candidate && pkt.term == currentTerm {
            voteGranted := voteGranted + 1;
            if voteGranted > nodeNum / 2 {
              currentState := Leader;
              RaftSendHeartbeat();
              if voteGranted > nodeNum {
                voteGranted := nodeNum;
              }
              electionTimer := false;
              if testAutoFail {
                failTimer := true;
              }
            }
          }
        case Heartbeat =>
          if pkt.term >= currentTerm {
            currentState := Follower;
            currentTerm := pkt.term;
            electionTimer := true;
          }
        case Unknown =>
      }
    }

    method FailEnableCb()
      modifies this
      ensures State() == FailOn(old(State())) && sent == old(sent)
    {
      failTimer := false;
      testAutoFailEnabled := true;
      recoverTimer := true;
    }

    method FailDisableCb()
      modifies this
      ensures State() == FailOff(old(State())) && sent == old(sent)
    {
      recoverTimer := false;
      testAutoFailEnabled := false;
    }
  }
}
