/** A zone of nodes running the election over a network that may lose and reorder packets. */
module RaftCluster {
  import opened Common
  import opened RaftNodes

  /** Every node of the zone, and the packets on their way; a packet is delivered at most once. */
  datatype World = World(nodes: map<Uuid, Node>, net: multiset<Packet>)

  datatype Step =
    | Deliver(packet: Packet, draws: Draws)
    | Idle(id: Uuid, timers: Timers, voters: seq<Uuid>)
    | Lose(lost: Packet)

  function InitialNode(): Node {
    Node(WaitForCandidate, None, 0, 0, None)
  }

  function Init(members: seq<Uuid>): World {
    World(map id | id in members :: InitialNode(), multiset{})
  }

  function Apply(w: World, id: Uuid, o: Outcome): World {
    World(w.nodes[id := o.node], w.net + multiset(o.sent))
  }

  ghost predicate Next(members: seq<Uuid>, w: World, step: Step, w': World) {
    match step
    case Deliver(p, draws) =>
      && p in w.net && p.to in w.nodes
      && w' == Apply(w.(net := w.net - multiset{p}), p.to, OnMessage(p.to, members, w.nodes[p.to], p.msg, draws))
    case Idle(id, timers, voters) =>
      && id in w.nodes
      && w' == Apply(w, id, OnIdle(id, members, w.nodes[id], timers, voters))
    case Lose(p) => p in w.net && w' == w.(net := w.net - multiset{p})
  }

  ghost predicate Reaches(members: seq<Uuid>, w: World, w': World) {
    exists step :: Next(members, w, step, w')
  }

  ghost predicate IsRun(members: seq<Uuid>, run: seq<World>) {
    && |run| > 0
    && run[0] == Init(members)
    && forall i, j :: 0 <= i && j == i + 1 && j < |run| ==> Reaches(members, run[i], run[j])
  }

  ghost predicate LeadsAt(w: World, id: Uuid, turn: nat) {
    id in w.nodes && w.nodes[id].role == Leader && w.nodes[id].turn == turn
  }

  // ---------------------------------------------------------------- the inductive invariant

  /** What happened so far: who voted for whom in which turn, which votes were counted, who won. */
  datatype History = History(ballots: map<(Uuid, nat), Uuid>, counted: map<(Uuid, nat), set<Uuid>>,
                             winners: set<(Uuid, nat)>)

  /** A node in this state may still vote, or stand, in its turn. */
  predicate Open(n: Node) {
    n.role == WaitForCandidate || (n.role == Follower && n.leader.None?)
  }

  ghost predicate BallotsOk(w: World, h: History) {
    forall v, t :: (v, t) in h.ballots ==>
      v in w.nodes && t <= w.nodes[v].turn && (Open(w.nodes[v]) ==> t < w.nodes[v].turn)
  }

  ghost predicate CountsOk(h: History) {
    && (forall c, t :: (c, t) in h.counted ==> c in h.counted[(c, t)])
    && (forall c, t, v :: (c, t) in h.counted && v in h.counted[(c, t)] ==>
         (v, t) in h.ballots && h.ballots[(v, t)] == c)
  }

  ghost predicate WinnersOk(members: seq<Uuid>, h: History) {
    forall c, t :: (c, t) in h.winners ==> (c, t) in h.counted && |h.counted[(c, t)]| >= Quorum(|members|)
  }

  /** A recorded leader won a turn no later than `turn`. */
  ghost predicate Elected(h: History, leader: Uuid, turn: nat) {
    exists t: nat :: t <= turn && (leader, t) in h.winners
  }

  ghost predicate NodeOk(h: History, id: Uuid, n: Node) {
    && (n.leader.Some? ==> n.role == Follower && n.leader.value != id && Elected(h, n.leader.value, n.turn))
    && (n.role == Candidate ==> (id, n.turn) in h.counted && n.votes == |h.counted[(id, n.turn)]|)
    && (n.role == Leader ==> (id, n.turn) in h.winners)
  }

  ghost predicate NodesOk(w: World, h: History) {
    forall id :: id in w.nodes ==> NodeOk(h, id, w.nodes[id])
  }

  ghost predicate VoteOk(h: History, net: multiset<Packet>, p: Packet) {
    && (p.msg.from, p.msg.turn) in h.ballots && h.ballots[(p.msg.from, p.msg.turn)] == p.to
    && net[p] == 1
    && ((p.to, p.msg.turn) in h.counted ==> p.msg.from !in h.counted[(p.to, p.msg.turn)])
  }

  ghost predicate NetOk(h: History, net: multiset<Packet>) {
    forall p :: p in net ==>
      && (p.msg.body.Vote? ==> VoteOk(h, net, p))
      && (p.msg.body.LeaderElected? ==> (p.msg.body.elected, p.msg.turn) in h.winners)
  }

  ghost predicate Inv(members: seq<Uuid>, w: World, h: History) {
    && w.nodes.Keys == (set id | id in members)
    && BallotsOk(w, h) && CountsOk(h) && WinnersOk(members, h) && NodesOk(w, h) && NetOk(h, w.net)
  }

  /** Later histories remember everything earlier ones did; whoever is new among the winners leads in `w'`. */
  ghost predicate Extends(h: History, h': History, w': World) {
    && (forall b :: b in h.ballots ==> b in h'.ballots && h'.ballots[b] == h.ballots[b])
    && h.winners <= h'.winners
    && (forall c, t :: (c, t) in h'.winners - h.winners ==> LeadsAt(w', c, t))
  }

  /** A packet that carries neither a vote nor the announcement of a leader. */
  predicate Inert(p: Packet) {
    !p.msg.body.Vote? && !p.msg.body.LeaderElected?
  }

  lemma LoseKeeps(members: seq<Uuid>, w: World, h: History, p: Packet)
    requires Inv(members, w, h) && p in w.net
    ensures Inv(members, w.(net := w.net - multiset{p}), h)
    ensures NetOk(h, multiset{p}) && (p.msg.body.Vote? ==> p !in w.net - multiset{p})
  {
  }

  /** Sending packets without votes, announcing only leaders that did win, keeps everything. */
  lemma SendKeeps(members: seq<Uuid>, w: World, h: History, sent: seq<Packet>)
    requires Inv(members, w, h)
    requires forall p :: p in sent ==>
        Inert(p) || (p.msg.body.LeaderElected? && (p.msg.body.elected, p.msg.turn) in h.winners)
    ensures Inv(members, w.(net := w.net + multiset(sent)), h)
  {
    var net' := w.net + multiset(sent);
    forall p | p in net'
      ensures p.msg.body.Vote? ==> VoteOk(h, net', p)
      ensures p.msg.body.LeaderElected? ==> (p.msg.body.elected, p.msg.turn) in h.winners
    {
      assert p in multiset(sent) ==> p in sent;
      if p.msg.body.Vote? {
        assert multiset(sent)[p] == 0;
        assert VoteOk(h, w.net, p);
      }
    }
  }

  /** Moving a node to a later turn, whether or not it forgets its leader, keeps everything. */
  lemma LaterTurnKeeps(members: seq<Uuid>, w: World, h: History, id: Uuid, turn: nat)
    requires Inv(members, w, h) && id in w.nodes && w.nodes[id].turn < turn
    ensures Inv(members, w.(nodes := w.nodes[id := CatchUp(w.nodes[id], turn)]), h)
    ensures Inv(members, w.(nodes := w.nodes[id := FailToElect(w.nodes[id])]), h)
  {
    var n := w.nodes[id];
    if n.leader.Some? {
      var t: nat :| t <= n.turn && (n.leader.value, t) in h.winners;
      assert Elected(h, n.leader.value, turn);
    }
  }

  lemma ApplyTwice(w: World, id: Uuid, n: Node, first: seq<Packet>, o: Outcome)
    requires id in w.nodes
    ensures Apply(Apply(w, id, Outcome(n, first)), id, o) == Apply(w, id, Outcome(o.node, first + o.sent))
  {
    assert multiset(first + o.sent) == multiset(first) + multiset(o.sent);
  }

  /** A node that sent something may send more that is harmless. */
  lemma SendMoreKeeps(members: seq<Uuid>, w: World, h: History, id: Uuid, n: Node,
                        first: seq<Packet>, more: seq<Packet>)
    requires id in w.nodes && Inv(members, Apply(w, id, Outcome(n, first)), h)
    requires forall p :: p in more ==> Inert(p)
    ensures Inv(members, Apply(w, id, Outcome(n, first + more)), h)
  {
    hide Inv;
    var w1 := Apply(w, id, Outcome(n, first));
    SendKeeps(members, w1, h, more);
    ApplyTwice(w, id, n, first, Outcome(n, more));
    assert Apply(w1, id, Outcome(n, more)).nodes == w1.nodes;
  }

  /** An open node hands its one ballot of the turn to `c`. */
  lemma BallotKeeps(members: seq<Uuid>, w: World, h: History, id: Uuid, c: Uuid)
    returns (h': History)
    requires Inv(members, w, h) && id in w.nodes && Open(w.nodes[id]) && w.nodes[id].leader.None?
    ensures var n := w.nodes[id];
            var voted := Outcome(n.(role := DidVote, voteFor := Some(c)), [Packet(c, Message(id, n.turn, Vote))]);
            Inv(members, Apply(w, id, voted), h') && Extends(h, h', w)
  {
    var n := w.nodes[id];
    var vote := Packet(c, Message(id, n.turn, Vote));
    assert (id, n.turn) !in h.ballots;
    h' := h.(ballots := h.ballots[(id, n.turn) := c]);
    var net' := w.net + multiset{vote};
    forall p | p in net' && p.msg.body.Vote? ensures VoteOk(h', net', p) {
      if p in w.net { assert VoteOk(h, w.net, p); }
    }
  }

  lemma AskVoteKeeps(members: seq<Uuid>, w: World, h: History, id: Uuid, msg: Message, forwards: seq<Uuid>)
    returns (h': History)
    requires Inv(members, w, h) && id in w.nodes && msg.body.AskVote?
    ensures Inv(members, Apply(w, id, OnAskVote(id, w.nodes[id], msg, forwards)), h')
    ensures Extends(h, h', Apply(w, id, OnAskVote(id, w.nodes[id], msg, forwards)))
  {
    hide Inv;
    var n := w.nodes[id];
    var o := OnAskVote(id, n, msg, forwards);
    h' := h;
    if n.leader.None? && n.role in {Follower, WaitForCandidate} {
      var vote := Packet(msg.body.candidate, Message(id, n.turn, Vote));
      h' := BallotKeeps(members, w, h, id, msg.body.candidate);
      SendMoreKeeps(members, w, h', id, o.node, [vote], ToAll(forwards, msg));
    } else {
      assert Apply(w, id, o) == w;
    }
  }

  /** A candidate counts a vote it had not counted yet. */
  lemma CountKeeps(members: seq<Uuid>, w: World, h: History, id: Uuid, from: Uuid)
    returns (h': History)
    requires Inv(members, w, h) && id in w.nodes && w.nodes[id].role == Candidate
    requires VoteOk(h, multiset{Packet(id, Message(from, w.nodes[id].turn, Vote))},
                    Packet(id, Message(from, w.nodes[id].turn, Vote)))
    requires Packet(id, Message(from, w.nodes[id].turn, Vote)) !in w.net
    ensures Inv(members, w.(nodes := w.nodes[id := w.nodes[id].(votes := w.nodes[id].votes + 1)]), h')
    ensures Extends(h, h', w)
  {
    var n := w.nodes[id];
    var key := (id, n.turn);
    h' := h.(counted := h.counted[key := h.counted[key] + {from}]);
    forall p | p in w.net && p.msg.body.Vote? ensures VoteOk(h', w.net, p) {
      assert VoteOk(h, w.net, p);
    }
  }

  /** A candidate with a quorum takes the lead. */
  lemma WinKeeps(members: seq<Uuid>, w: World, h: History, id: Uuid)
    returns (h': History)
    requires Inv(members, w, h) && id in w.nodes
    requires w.nodes[id].role == Candidate && w.nodes[id].votes >= Quorum(|members|)
    ensures Inv(members, w.(nodes := w.nodes[id := w.nodes[id].(role := Leader)]), h')
    ensures Extends(h, h', w.(nodes := w.nodes[id := w.nodes[id].(role := Leader)]))
    ensures (id, w.nodes[id].turn) in h'.winners
  {
    h' := h.(winners := h.winners + {(id, w.nodes[id].turn)});
    forall i | i in w.nodes && w.nodes[i].leader.Some?
      ensures Elected(h', w.nodes[i].leader.value, w.nodes[i].turn)
    {
      assert Elected(h, w.nodes[i].leader.value, w.nodes[i].turn);
    }
  }

  lemma VoteKeeps(members: seq<Uuid>, w: World, h: History, id: Uuid, from: Uuid)
    returns (h': History)
    requires Inv(members, w, h) && id in w.nodes
    requires VoteOk(h, multiset{Packet(id, Message(from, w.nodes[id].turn, Vote))},
                    Packet(id, Message(from, w.nodes[id].turn, Vote)))
    requires Packet(id, Message(from, w.nodes[id].turn, Vote)) !in w.net
    ensures Inv(members, Apply(w, id, OnVote(id, members, w.nodes[id])), h')
    ensures Extends(h, h', Apply(w, id, OnVote(id, members, w.nodes[id])))
  {
    hide Inv;
    var n := w.nodes[id];
    var o := OnVote(id, members, n);
    h' := h;
    if n.role != Candidate {
      assert Apply(w, id, o) == w;
    } else {
      h' := CountKeeps(members, w, h, id, from);
      var w1 := w.(nodes := w.nodes[id := n.(votes := n.votes + 1)]);
      if o.node.role == Leader {
        h' := WinKeeps(members, w1, h', id);
        var w2 := w1.(nodes := w1.nodes[id := o.node]);
        SendKeeps(members, w2, h', o.sent);
        assert Apply(w, id, o) == w2.(net := w2.net + multiset(o.sent));
      } else {
        assert Apply(w, id, o) == w1;
      }
    }
  }

  lemma LeaderElectedKeeps(members: seq<Uuid>, w: World, h: History, id: Uuid, elected: Uuid)
    requires Inv(members, w, h) && id in w.nodes && (elected, w.nodes[id].turn) in h.winners
    ensures Inv(members, w.(nodes := w.nodes[id := OnLeaderElected(id, w.nodes[id], elected)]), h)
  {
    assert Elected(h, elected, w.nodes[id].turn);
  }

  lemma CandidacyKeeps(members: seq<Uuid>, w: World, h: History, id: Uuid, voters: seq<Uuid>)
    returns (h': History)
    requires Inv(members, w, h) && id in w.nodes && w.nodes[id].role == WaitForCandidate
    ensures Inv(members, Apply(w, id, BecomeCandidate(id, w.nodes[id], voters)), h') && Extends(h, h', w)
  {
    var n := w.nodes[id];
    var o := BecomeCandidate(id, n, voters);
    var key := (id, n.turn);
    h' := h.(ballots := h.ballots[key := id], counted := h.counted[key := {id}]);
    assert key !in h.ballots && key !in h.counted;
    var w1 := w.(nodes := w.nodes[id := o.node]);
    assert Inv(members, w1, h') by {
      forall p | p in w1.net && p.msg.body.Vote? ensures VoteOk(h', w1.net, p) {
        assert VoteOk(h, w.net, p);
      }
    }
    SendKeeps(members, w1, h', o.sent);
  }

  lemma CurrentKeeps(members: seq<Uuid>, w: World, h: History, p: Packet, draws: Draws)
    returns (h': History)
    requires Inv(members, w, h) && p.to in w.nodes && w.nodes[p.to].turn == p.msg.turn
    requires NetOk(h, multiset{p}) && (p.msg.body.Vote? ==> p !in w.net)
    ensures Inv(members, Apply(w, p.to, OnCurrent(p.to, members, w.nodes[p.to], p.msg, draws.forwards)), h')
    ensures Extends(h, h', Apply(w, p.to, OnCurrent(p.to, members, w.nodes[p.to], p.msg, draws.forwards)))
  {
    var n := w.nodes[p.to];
    h' := h;
    assert p in multiset{p};
    match p.msg.body {
      case AskVote(_) => h' := AskVoteKeeps(members, w, h, p.to, p.msg, draws.forwards);
      case Vote =>
        assert VoteOk(h, multiset{p}, p);
        assert p == Packet(p.to, Message(p.msg.from, n.turn, Vote));
        h' := VoteKeeps(members, w, h, p.to, p.msg.from);
      case LeaderElected(elected) =>
        LeaderElectedKeeps(members, w, h, p.to, elected);
        assert w.net + multiset([]) == w.net;
      case _ => assert Apply(w, p.to, Outcome(n, [])) == w;
    }
  }

  /** A message of a later turn: catch up, say hello to a few others, then handle the message. */
  lemma BehindKeeps(members: seq<Uuid>, w: World, h: History, p: Packet, draws: Draws)
    returns (h': History)
    requires Inv(members, w, h) && p.to in w.nodes && w.nodes[p.to].turn < p.msg.turn
    requires NetOk(h, multiset{p}) && (p.msg.body.Vote? ==> p !in w.net)
    ensures Inv(members, Apply(w, p.to, OnMessage(p.to, members, w.nodes[p.to], p.msg, draws)), h')
    ensures Extends(h, h', Apply(w, p.to, OnMessage(p.to, members, w.nodes[p.to], p.msg, draws)))
  {
    hide Inv, NetOk, OnCurrent, Extends;
    var n := CatchUp(w.nodes[p.to], p.msg.turn);
    var dummies := ToAll(draws.dummies, Message(p.to, p.msg.turn, Dummy));
    LaterTurnKeeps(members, w, h, p.to, p.msg.turn);
    var w2 := w.(nodes := w.nodes[p.to := n]);
    SendKeeps(members, w2, h, dummies);
    var w3 := Apply(w, p.to, Outcome(n, dummies));
    assert w3 == w2.(net := w2.net + multiset(dummies));
    assert p.msg.body.Vote? ==> p !in w3.net by {
      if p in multiset(dummies) { assert p in dummies; }
    }
    h' := CurrentKeeps(members, w3, h, p, draws);
    ApplyTwice(w, p.to, n, dummies, OnCurrent(p.to, members, n, p.msg, draws.forwards));
  }

  lemma DeliverKeeps(members: seq<Uuid>, w: World, h: History, p: Packet, draws: Draws)
    returns (h': History)
    requires Inv(members, w, h) && p in w.net && p.to in w.nodes
    ensures Inv(members, Apply(w.(net := w.net - multiset{p}), p.to,
                               OnMessage(p.to, members, w.nodes[p.to], p.msg, draws)), h')
    ensures Extends(h, h', Apply(w.(net := w.net - multiset{p}), p.to,
            OnMessage(p.to, members, w.nodes[p.to], p.msg, draws)))
  {
    hide Inv, NetOk, OnCurrent;
    var n := w.nodes[p.to];
    var w1 := w.(net := w.net - multiset{p});
    LoseKeeps(members, w, h, p);
    if n.turn > p.msg.turn {
      h' := h;
      var warn := [Packet(p.msg.from, Message(p.to, n.turn, WarnOldElectionTurn))];
      SendKeeps(members, w1, h, warn);
      assert Apply(w1, p.to, Outcome(n, warn)).nodes == w.nodes;
    } else if n.turn < p.msg.turn {
      h' := BehindKeeps(members, w1, h, p, draws);
    } else {
      h' := CurrentKeeps(members, w1, h, p, draws);
    }
  }

  lemma WaitAgainKeeps(members: seq<Uuid>, w: World, h: History, id: Uuid)
    requires Inv(members, w, h) && id in w.nodes && Open(w.nodes[id])
    ensures Inv(members, w.(nodes := w.nodes[id := w.nodes[id].(role := WaitForCandidate)]), h)
  {
  }

  lemma TimersKeep(members: seq<Uuid>, w: World, h: History, id: Uuid, timers: Timers, voters: seq<Uuid>)
    returns (h': History)
    requires Inv(members, w, h) && id in w.nodes
    ensures Inv(members, Apply(w, id, OnTimers(id, members, w.nodes[id], timers, voters)), h')
    ensures Extends(h, h', Apply(w, id, OnTimers(id, members, w.nodes[id], timers, voters)))
  {
    hide Inv;
    var n := w.nodes[id];
    var o := OnTimers(id, members, n, timers, voters);
    h' := h;
    if n.role == WaitForCandidate && timers.timeToCandidate {
      h' := CandidacyKeeps(members, w, h, id, voters);
    } else {
      LaterTurnKeeps(members, w, h, id, n.turn + 1);
      var w1 := w.(nodes := w.nodes[id := o.node]);
      if o.node == n {
        assert w1 == w;
      } else if Open(n) {
        WaitAgainKeeps(members, w, h, id);
      }
      SendKeeps(members, w1, h, o.sent);
    }
  }

  lemma IdleKeeps(members: seq<Uuid>, w: World, h: History, id: Uuid, timers: Timers, voters: seq<Uuid>)
    returns (h': History)
    requires Inv(members, w, h) && id in w.nodes
    ensures Inv(members, Apply(w, id, OnIdle(id, members, w.nodes[id], timers, voters)), h')
    ensures Extends(h, h', Apply(w, id, OnIdle(id, members, w.nodes[id], timers, voters)))
  {
    hide Inv, OnTimers;
    var n := w.nodes[id];
    if |members| < RAFT_MINIMAL_MEMBERS_NB {
      h' := h;
      assert Apply(w, id, Outcome(n, [])) == w;
    } else {
      var n1 := GiveUpStaleVote(n, timers);
      var w1 := w.(nodes := w.nodes[id := n1]);
      if n1 == n { assert w1 == w; } else { LaterTurnKeeps(members, w, h, id, n.turn + 1); }
      h' := TimersKeep(members, w1, h, id, timers, voters);
      var o := OnTimers(id, members, n1, timers, voters);
      assert Apply(w1, id, o) == Apply(w, id, o);
    }
  }

  lemma NextKeeps(members: seq<Uuid>, w: World, h: History, step: Step, w': World)
    returns (h': History)
    requires Inv(members, w, h) && Next(members, w, step, w')
    ensures Inv(members, w', h') && Extends(h, h', w')
  {
    match step {
      case Deliver(p, draws) => h' := DeliverKeeps(members, w, h, p, draws);
      case Idle(id, timers, voters) => h' := IdleKeeps(members, w, h, id, timers, voters);
      case Lose(p) => LoseKeeps(members, w, h, p); h' := h;
    }
  }

  // ---------------------------------------------------------------- what holds along every run

  /** Every winner of the history did lead somewhere in the first `k + 1` worlds of the run. */
  ghost predicate WinnersLed(run: seq<World>, k: nat, h: History) {
    forall c, t :: (c, t) in h.winners ==> exists i :: 0 <= i <= k && i < |run| && LeadsAt(run[i], c, t)
  }

  lemma {:induction false} HistoryAlong(members: seq<Uuid>, run: seq<World>, i: nat, j: nat)
    returns (hi: History, hj: History)
    requires IsRun(members, run) && i <= j < |run|
    ensures Inv(members, run[i], hi) && Inv(members, run[j], hj)
    ensures hi.winners <= hj.winners && WinnersLed(run, j, hj)
    ensures forall b :: b in hi.ballots ==> b in hj.ballots && hj.ballots[b] == hi.ballots[b]
    decreases j
  {
    if j == 0 {
      hj := History(map[], map[], {});
      hi := hj;
    } else {
      var h: History;
      hi, h := HistoryAlong(members, run, if i == j then j - 1 else i, j - 1);
      assert Reaches(members, run[j - 1], run[j]);
      var step :| Next(members, run[j - 1], step, run[j]);
      hj := NextKeeps(members, run[j - 1], h, step, run[j]);
      assert WinnersLed(run, j, hj) by {
        forall c, t | (c, t) in hj.winners ensures exists i :: 0 <= i <= j && LeadsAt(run[i], c, t) {
          if (c, t) !in h.winners { assert LeadsAt(run[j], c, t); }
        }
      }
      if i == j { hi := hj; }
    }
  }

  lemma {:induction false} MembersAtMost(members: seq<Uuid>)
    ensures |set id | id in members| <= |members|
  {
    if members != [] {
      MembersAtMost(members[1..]);
      assert (set id | id in members) == {members[0]} + (set id | id in members[1..]);
    }
  }

  /** Two quorums of one turn share a voter, and a voter has one ballot a turn. */
  lemma OneWinnerPerTurn(members: seq<Uuid>, w: World, h: History, a: Uuid, b: Uuid, turn: nat)
    requires Inv(members, w, h) && (a, turn) in h.winners && (b, turn) in h.winners
    ensures a == b
  {
    if a != b {
      var forA, forB := h.counted[(a, turn)], h.counted[(b, turn)];
      assert forA * forB == {};
      assert |forA + forB| == |forA| + |forB|;
      var all := set id | id in members;
      assert forA + forB <= all;
      SubsetSize(forA + forB, all);
      MembersAtMost(members);
      assert false;
    }
  }

  lemma {:induction false} SubsetSize<T>(a: set<T>, b: set<T>)
    requires a <= b
    ensures |a| <= |b|
  {
    assert b == a + (b - a);
  }

  /** Election safety: no two nodes ever lead in the same turn, at whatever moments of the run. */
  lemma ElectionSafety(members: seq<Uuid>, run: seq<World>, i: nat, j: nat, a: Uuid, b: Uuid, turn: nat)
    requires IsRun(members, run) && i < |run| && j < |run|
    requires LeadsAt(run[i], a, turn) && LeadsAt(run[j], b, turn)
    ensures a == b
  {
    var hi, hj := HistoryAlong(members, run, if i <= j then i else j, if i <= j then j else i);
    OneWinnerPerTurn(members, run[if i <= j then j else i], hj, a, b, turn);
  }

  /** A node sends its vote of a turn to one candidate only, whenever the two votes are on their way. */
  lemma OneVotePerTurn(members: seq<Uuid>, run: seq<World>, i: nat, j: nat, p: Packet, q: Packet)
    requires IsRun(members, run) && i <= j < |run|
    requires p in run[i].net && q in run[j].net && p.msg.body.Vote? && q.msg.body.Vote?
    requires p.msg.from == q.msg.from && p.msg.turn == q.msg.turn
    ensures p == q && run[j].net[q] == 1
  {
    var hi, hj := HistoryAlong(members, run, i, j);
    assert VoteOk(hi, run[i].net, p) && VoteOk(hj, run[j].net, q);
  }

  /** A candidacy is a vote too: a node that stood or led in a turn, at any moment of the run, has its vote of that
      turn, if one is ever on its way, go to itself. */
  lemma CandidateVotesForItself(members: seq<Uuid>, run: seq<World>, i: nat, j: nat, id: Uuid, p: Packet)
    requires IsRun(members, run) && i < |run| && j < |run| && id in run[i].nodes
    requires run[i].nodes[id].role in {Candidate, Leader}
    requires p in run[j].net && p.msg.body.Vote? && p.msg.from == id && p.msg.turn == run[i].nodes[id].turn
    ensures p.to == id
  {
    var h1, h2 := HistoryAlong(members, run, if i <= j then i else j, if i <= j then j else i);
    var hi, hj := if i <= j then h1 else h2, if i <= j then h2 else h1;
    assert NodeOk(hi, id, run[i].nodes[id]);
    assert hi.ballots[(id, p.msg.turn)] == id;
    assert VoteOk(hj, run[j].net, p);
  }

  lemma OutcomesKeepTurn(members: seq<Uuid>, id: Uuid, n: Node, msg: Message, draws: Draws, timers: Timers,
                         voters: seq<Uuid>)
    ensures n.turn <= OnMessage(id, members, n, msg, draws).node.turn
    ensures n.turn <= OnIdle(id, members, n, timers, voters).node.turn
  {
    hide ToAll, ToOthers, Quorum;
  }

  lemma NextKeepsTurns(members: seq<Uuid>, w: World, step: Step, w': World, id: Uuid)
    requires Next(members, w, step, w') && id in w.nodes
    ensures id in w'.nodes && w.nodes[id].turn <= w'.nodes[id].turn
  {
    hide OnMessage, OnIdle;
    match step {
      case Deliver(p, draws) =>
        OutcomesKeepTurn(members, p.to, w.nodes[p.to], p.msg, draws, Timers(false, false, false, false, false), []);
      case Idle(i, timers, voters) =>
        OutcomesKeepTurn(members, i, w.nodes[i], Message(i, 0, Dummy), Draws([], []), timers, voters);
      case Lose(_) =>
    }
  }

  lemma {:induction false} TurnsNeverDecrease(members: seq<Uuid>, run: seq<World>, i: nat, j: nat, id: Uuid)
    requires IsRun(members, run) && i <= j < |run| && id in run[i].nodes
    ensures id in run[j].nodes && run[i].nodes[id].turn <= run[j].nodes[id].turn
    decreases j
  {
    hide Next;
    if i < j {
      TurnsNeverDecrease(members, run, i, j - 1, id);
      assert Reaches(members, run[j - 1], run[j]);
      var step :| Next(members, run[j - 1], step, run[j]);
      NextKeepsTurns(members, run[j - 1], step, run[j], id);
    }
  }

  /** A node that records a leader follows, and that leader is another node that led at some earlier
      moment, in a turn no later than the follower's own. */
  lemma LeaderWasElected(members: seq<Uuid>, run: seq<World>, j: nat, id: Uuid)
    requires IsRun(members, run) && j < |run| && id in run[j].nodes && run[j].nodes[id].leader.Some?
    ensures var n := run[j].nodes[id];
            && n.role == Follower && n.leader.value != id
            && exists i, t: nat :: 0 <= i <= j && t <= n.turn && LeadsAt(run[i], n.leader.value, t)
  {
    var _, h := HistoryAlong(members, run, j, j);
    var n := run[j].nodes[id];
    assert NodeOk(h, id, n);
    var t: nat :| t <= n.turn && (n.leader.value, t) in h.winners;
    var i :| 0 <= i <= j && LeadsAt(run[i], n.leader.value, t);
  }

  /** The branch for a second leader is never taken: by the time an announcement is handled, its
      receiver is not leading, or is the very node announced. */
  lemma AnotherLeaderUnreachable(members: seq<Uuid>, run: seq<World>, j: nat, p: Packet)
    requires IsRun(members, run) && j < |run|
    requires p in run[j].net && p.to in run[j].nodes && p.msg.body.LeaderElected?
    ensures var n := run[j].nodes[p.to];
            && (n.turn == p.msg.turn ==> !AnotherLeader(p.to, n, p.msg.body.elected))
            && (n.turn < p.msg.turn ==> !AnotherLeader(p.to, CatchUp(n, p.msg.turn), p.msg.body.elected))
  {
    var _, h := HistoryAlong(members, run, j, j);
    var n := run[j].nodes[p.to];
    if n.turn == p.msg.turn && n.role == Leader {
      assert NodeOk(h, p.to, n);
      OneWinnerPerTurn(members, run[j], h, p.to, p.msg.body.elected, n.turn);
    }
  }
}
