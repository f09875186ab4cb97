/** One member of the leader election of opsbro/raft.py: its messages, its state, its handlers. */
module RaftNodes {
  import opened Common

  type Uuid = string

  const RAFT_MINIMAL_MEMBERS_NB := 3

  datatype Role = DidVote | Leader | Follower | Candidate | WaitForCandidate

  datatype Body =
    | WarnOldElectionTurn
    | Vote
    | AskVote(candidate: Uuid)
    | LeaderElected(elected: Uuid)
    | LeaderHeartbeat(leader: Uuid)
    | Dummy

  datatype Message = Message(from: Uuid, turn: nat, body: Body)

  datatype Packet = Packet(to: Uuid, msg: Message)

  /** The fields of a node that decide what it does; clocks enter as `Timers`. */
  datatype Node = Node(role: Role, leader: Option<Uuid>, turn: nat, votes: nat, voteFor: Option<Uuid>)

  datatype Outcome = Outcome(node: Node, sent: seq<Packet>)

  /** The random draws of one pass of the loop. */
  datatype Draws = Draws(dummies: seq<Uuid>, forwards: seq<Uuid>)

  /** How the clock comparisons of one idle pass of the loop come out. */
  datatype Timers = Timers(voteTooOld: bool, leaderTooOld: bool, candidacyTooOld: bool,
                           timeToCandidate: bool, timeToBeat: bool)

  /** ceil((n + 1) / 2), the number of votes that elects a leader. */
  function Quorum(n: nat): (q: nat)
    ensures n < 2 * q <= n + 2
  {
    (n + 2) / 2
  }

  function ToAll(dests: seq<Uuid>, msg: Message): (ps: seq<Packet>)
    ensures forall p :: p in ps ==> p.msg == msg && p.to in dests
  {
    if dests == [] then [] else [Packet(dests[0], msg)] + ToAll(dests[1..], msg)
  }

  function ToOthers(me: Uuid, members: seq<Uuid>, msg: Message): (ps: seq<Packet>)
    ensures forall p :: p in ps ==> p.msg == msg && p.to in members && p.to != me
  {
    if members == [] then []
    else if members[0] == me then ToOthers(me, members[1..], msg)
    else [Packet(members[0], msg)] + ToOthers(me, members[1..], msg)
  }

  /** Give the election up: forget everything and wait in the next turn. */
  function FailToElect(n: Node): Node {
    Node(WaitForCandidate, None, n.turn + 1, 0, None)
  }

  /** Join the later turn `turn` announced by a message. */
  function CatchUp(n: Node, turn: nat): Node {
    if n.role in {Follower, WaitForCandidate} then n.(turn := turn)
    else FailToElect(n).(turn := turn)
  }

  /** A candidate asks for a vote. */
  function OnAskVote(me: Uuid, n: Node, msg: Message, forwards: seq<Uuid>): Outcome
    requires msg.body.AskVote?
  {
    if n.leader.Some? || n.role !in {Follower, WaitForCandidate} then Outcome(n, [])
    else Outcome(n.(role := DidVote, voteFor := Some(msg.body.candidate)),
                 [Packet(msg.body.candidate, Message(me, n.turn, Vote))] + ToAll(forwards, msg))
  }

  /** A vote arrives; nobody looks at who sent it. */
  function OnVote(me: Uuid, members: seq<Uuid>, n: Node): Outcome {
    if n.role != Candidate then Outcome(n, [])
    else if n.votes + 1 < Quorum(|members|) then Outcome(n.(votes := n.votes + 1), [])
    else Outcome(n.(votes := n.votes + 1, role := Leader),
                 ToOthers(me, members, Message(me, n.turn, LeaderElected(me))))
  }

  /** The branch the source marks as "to manage": somebody else announces itself to a sitting leader. */
  predicate AnotherLeader(me: Uuid, n: Node, elected: Uuid) {
    elected != me && n.role == Leader
  }

  function OnLeaderElected(me: Uuid, n: Node, elected: Uuid): Node {
    if elected == me || AnotherLeader(me, n, elected) || n.leader == Some(elected) then n
    else if n.role in {Candidate, Follower, DidVote} then
      n.(leader := Some(elected), votes := 0, role := Follower)
    else n
  }

  /** What a message of the node's own turn does. */
  function OnCurrent(me: Uuid, members: seq<Uuid>, n: Node, msg: Message, forwards: seq<Uuid>): Outcome {
    match msg.body
    case AskVote(_) => OnAskVote(me, n, msg, forwards)
    case Vote => OnVote(me, members, n)
    case LeaderElected(elected) => Outcome(OnLeaderElected(me, n, elected), [])
    case _ => Outcome(n, [])
  }

  /** The message branch of the loop. */
  function OnMessage(me: Uuid, members: seq<Uuid>, n: Node, msg: Message, draws: Draws): Outcome {
    if n.turn > msg.turn then
      Outcome(n, [Packet(msg.from, Message(me, n.turn, WarnOldElectionTurn))])
    else if n.turn < msg.turn then
      var o := OnCurrent(me, members, CatchUp(n, msg.turn), msg, draws.forwards);
      Outcome(o.node, ToAll(draws.dummies, Message(me, msg.turn, Dummy)) + o.sent)
    else OnCurrent(me, members, n, msg, draws.forwards)
  }

  /** Run for leader: vote for oneself and ask everybody. */
  function BecomeCandidate(me: Uuid, n: Node, voters: seq<Uuid>): Outcome {
    Outcome(n.(role := Candidate, votes := 1), ToAll(voters, Message(me, n.turn, AskVote(me))))
  }

  function GiveUpStaleVote(n: Node, timers: Timers): Node {
    if n.role == DidVote && timers.voteTooOld then FailToElect(n) else n
  }

  function OnTimers(me: Uuid, members: seq<Uuid>, n: Node, timers: Timers, voters: seq<Uuid>): Outcome {
    match n.role
    case Follower =>
      if n.leader.None? then Outcome(n.(role := WaitForCandidate), [])
      else Outcome(if timers.leaderTooOld then FailToElect(n) else n, [])
    case Candidate => Outcome(if timers.candidacyTooOld then FailToElect(n) else n, [])
    case WaitForCandidate =>
      if timers.timeToCandidate then BecomeCandidate(me, n, voters) else Outcome(n, [])
    case Leader =>
      Outcome(n, if timers.timeToBeat then ToOthers(me, members, Message(me, n.turn, LeaderHeartbeat(me))) else [])
    case DidVote => Outcome(n, [])
  }

  /** The branch of the loop taken when no message is waiting. */
  function OnIdle(me: Uuid, members: seq<Uuid>, n: Node, timers: Timers, voters: seq<Uuid>): Outcome {
    if |members| < RAFT_MINIMAL_MEMBERS_NB then Outcome(n, [])
    else OnTimers(me, members, GiveUpStaleVote(n, timers), timers, voters)
  }

  /** The node as the agent runs it: fields updated in place by the handlers of the loop. */
  class RaftNode {
    const uuid: Uuid
    const members: seq<Uuid>
    var state: Role
    var leader: Option<Uuid>
    var electionTurn: nat
    var nbVoteReceived: nat
    var voteForUuid: Option<Uuid>
    var sent: seq<Packet>

    function Snapshot(): Node
      reads this
    {
      Node(state, leader, electionTurn, nbVoteReceived, voteForUuid)
    }

    constructor (uuid: Uuid, members: seq<Uuid>)
      ensures this.uuid == uuid && this.members == members && sent == []
      ensures Snapshot() == Node(WaitForCandidate, None, 0, 0, None)
    {
      this.uuid, this.members, sent := uuid, members, [];
      state, leader, electionTurn, nbVoteReceived, voteForUuid := WaitForCandidate, None, 0, 0, None;
    }

    method SendToAllOthers(body: Body)
      modifies this`sent
      ensures sent == old(sent) + ToOthers(uuid, members, Message(uuid, electionTurn, body))
    {
      var msg := Message(uuid, electionTurn, body);
      ghost var all := ToOthers(uuid, members, msg);
      for i := 0 to |members|
        invariant sent + ToOthers(uuid, members[i..], msg) == old(sent) + all
      {
        if members[i] != uuid {
          sent := sent + [Packet(members[i], msg)];
        }
      }
    }

    method SendTo(dests: seq<Uuid>, msg: Message)
      modifies this`sent
      ensures sent == old(sent) + ToAll(dests, msg)
    {
      for i := 0 to |dests|
        invariant sent + ToAll(dests[i..], msg) == old(sent) + ToAll(dests, msg)
      {
        sent := sent + [Packet(dests[i], msg)];
      }
    }

    method Reset()
      modifies this`nbVoteReceived, this`state, this`leader, this`voteForUuid
      ensures Snapshot() == Node(Follower, None, electionTurn, 0, None)
    {
      nbVoteReceived := 0;
      state := Follower;
      leader := None;
      voteForUuid := None;
    }

    method FailElection()
      modifies this`nbVoteReceived, this`state, this`leader, this`voteForUuid, this`electionTurn
      ensures Snapshot() == FailToElect(old(Snapshot()))
    {
      Reset();
      electionTurn := electionTurn + 1;
      state := WaitForCandidate;
    }

    method ManageAskVote(msg: Message, forwards: seq<Uuid>)
      requires msg.body.AskVote?
      modifies this
      ensures Snapshot() == OnAskVote(uuid, old(Snapshot()), msg, forwards).node
      ensures sent == old(sent) + OnAskVote(uuid, old(Snapshot()), msg, forwards).sent
    {
      if leader.Some? {
        return;
      }
      if state !in {Follower, WaitForCandidate} {
        return;
      }
      state := DidVote;
      voteForUuid := Some(msg.body.candidate);
      sent := sent + [Packet(msg.body.candidate, Message(uuid, electionTurn, Vote))];
      SendTo(forwards, msg);
    }

    method ManageVote()
      modifies this
      ensures Snapshot() == OnVote(uuid, members, old(Snapshot())).node
      ensures sent == old(sent) + OnVote(uuid, members, old(Snapshot())).sent
    {
      if state != Candidate {
        return;
      }
      nbVoteReceived := nbVoteReceived + 1;
      if nbVoteReceived >= Quorum(|members|) {
        state := Leader;
        SendToAllOthers(LeaderElected(uuid));
      }
    }

    method ManageLeaderElected(elected: Uuid)
      modifies this`leader, this`nbVoteReceived, this`state
      ensures Snapshot() == OnLeaderElected(uuid, old(Snapshot()), elected)
    {
      if elected == uuid || state == Leader || leader == Some(elected) {
        return;
      }
      if state in {Candidate, Follower, DidVote} {
        leader := Some(elected);
        nbVoteReceived := 0;
        state := Follower;
      }
    }

    /** One pass of the loop with a message taken from the mailbox. */
    method Receive(msg: Message, draws: Draws)
      modifies this
      ensures Snapshot() == OnMessage(uuid, members, old(Snapshot()), msg, draws).node
      ensures sent == old(sent) + OnMessage(uuid, members, old(Snapshot()), msg, draws).sent
    {
      hide OnCurrent;
      if electionTurn > msg.turn {
        sent := sent + [Packet(msg.from, Message(uuid, electionTurn, WarnOldElectionTurn))];
        return;
      }
      if electionTurn < msg.turn {
        if state == Follower || state == WaitForCandidate {
          electionTurn := msg.turn;
        } else {
          FailElection();
          electionTurn := msg.turn;
          if state == Leader || state == Candidate {
            assert false;  // the source's relay to the others: the node has just gone back to waiting
          }
        }
        SendTo(draws.dummies, Message(uuid, electionTurn, Dummy));
      }
      Dispatch(msg, draws.forwards);
    }

    /** A message of the node's own turn, or of the turn it has just caught up with. */
    method Dispatch(msg: Message, forwards: seq<Uuid>)
      modifies this
      ensures Snapshot() == OnCurrent(uuid, members, old(Snapshot()), msg, forwards).node
      ensures sent == old(sent) + OnCurrent(uuid, members, old(Snapshot()), msg, forwards).sent
    {
      match msg.body {
        case AskVote(_) => ManageAskVote(msg, forwards);
        case Vote => ManageVote();
        case LeaderElected(elected) => ManageLeaderElected(elected);
        case _ =>
      }
    }

    /** One pass of the loop with an empty mailbox. */
    method Idle(timers: Timers, voters: seq<Uuid>)
      modifies this
      ensures Snapshot() == OnIdle(uuid, members, old(Snapshot()), timers, voters).node
      ensures sent == old(sent) + OnIdle(uuid, members, old(Snapshot()), timers, voters).sent
    {
      if |members| < RAFT_MINIMAL_MEMBERS_NB {
        return;
      }
      if state == DidVote && timers.voteTooOld {
        FailElection();
      }
      if state == Follower && leader.None? {
        state := WaitForCandidate;
      } else if state == Follower {
        if timers.leaderTooOld {
          FailElection();
        }
      } else if state == Candidate {
        if timers.candidacyTooOld {
          FailElection();
        }
      } else if state == WaitForCandidate {
        if timers.timeToCandidate {
          state := Candidate;
          nbVoteReceived := 1;
          SendTo(voters, Message(uuid, electionTurn, AskVote(uuid)));
        }
      } else if state == Leader {
        if timers.timeToBeat {
          SendToAllOthers(LeaderHeartbeat(uuid));
        }
      }
    }
  }
}
