/** What the steps of the election achieve, and that a zone is never stuck: whatever happened, some node can still
    win, and all the others follow it. */
module RaftLiveness {
  import opened Common
  import opened RaftNodes
  import opened RaftCluster

  // ---------------------------------------------------------------- single deliveries

  /** A delivery always brings its receiver to the turn of the message, if that is later. */
  lemma DeliveryCatchesUp(members: seq<Uuid>, w: World, p: Packet, draws: Draws, w': World)
    requires Next(members, w, Deliver(p, draws), w')
    ensures p.to in w.nodes && p.to in w'.nodes
    ensures w'.nodes[p.to].turn == if w.nodes[p.to].turn < p.msg.turn then p.msg.turn else w.nodes[p.to].turn
    ensures forall id :: id in w.nodes && id != p.to ==> id in w'.nodes && w'.nodes[id] == w.nodes[id]
  {
  }

  /** Whoever sends a message of an old turn is told the turn of its receiver, and knows it, or a later one, as soon
      as that warning is delivered, whenever that is. */
  lemma LaggardIsWarned(members: seq<Uuid>, run: seq<World>, i: nat, j: nat, p: Packet, draws: Draws, draws': Draws)
    requires IsRun(members, run) && i < j && j + 1 < |run| && Next(members, run[i], Deliver(p, draws), run[i + 1])
    requires p.to in run[i].nodes && p.msg.turn < run[i].nodes[p.to].turn
    ensures var warning := Packet(p.msg.from, Message(p.to, run[i].nodes[p.to].turn, WarnOldElectionTurn));
            && run[i + 1].nodes == run[i].nodes && warning in run[i + 1].net
            && (Next(members, run[j], Deliver(warning, draws'), run[j + 1]) ==>
                  && p.msg.from in run[j + 1].nodes
                  && run[j + 1].nodes[p.msg.from].turn >= run[i].nodes[p.to].turn)
  {
    var n := run[i].nodes[p.to];
    var warning := Packet(p.msg.from, Message(p.to, n.turn, WarnOldElectionTurn));
    assert OnMessage(p.to, members, n, p.msg, draws) == Outcome(n, [warning]);
    hide OnMessage, IsRun;
    if Next(members, run[j], Deliver(warning, draws'), run[j + 1]) {
      DeliveryCatchesUp(members, run[j], warning, draws', run[j + 1]);
    }
    assert run[i].nodes[p.to := n] == run[i].nodes;
    assert warning in multiset([warning]);
  }

  lemma {:induction false} ToAllHas(dests: seq<Uuid>, msg: Message, d: Uuid)
    requires d in dests
    ensures Packet(d, msg) in ToAll(dests, msg)
  {
    if dests[0] != d {
      ToAllHas(dests[1..], msg, d);
    }
  }

  lemma {:induction false} ToOthersHas(me: Uuid, members: seq<Uuid>, msg: Message, d: Uuid)
    requires d in members && d != me
    ensures Packet(d, msg) in ToOthers(me, members, msg)
  {
    if members[0] != d {
      ToOthersHas(me, members[1..], msg, d);
    }
  }

  lemma InSent(w: World, id: Uuid, o: Outcome, p: Packet)
    requires p in o.sent
    ensures p in Apply(w, id, o).net
  {
    assert p in multiset(o.sent);
  }

  /** A later turn is passed on to the nodes drawn. */
  lemma TurnIsPassedOn(members: seq<Uuid>, w: World, p: Packet, draws: Draws, w': World, d: Uuid)
    requires Next(members, w, Deliver(p, draws), w') && w.nodes[p.to].turn < p.msg.turn && d in draws.dummies
    ensures Packet(d, Message(p.to, p.msg.turn, Dummy)) in w'.net
  {
    var o := OnMessage(p.to, members, w.nodes[p.to], p.msg, draws);
    ToAllHas(draws.dummies, Message(p.to, p.msg.turn, Dummy), d);
    InSent(w.(net := w.net - multiset{p}), p.to, o, Packet(d, Message(p.to, p.msg.turn, Dummy)));
  }

  /** A request for a vote is granted by a node that waits, or follows nobody, in a turn no later than the request's:
      the vote is on its way, and the request goes on to the nodes drawn. */
  lemma RequestIsGranted(members: seq<Uuid>, w: World, p: Packet, draws: Draws, w': World, d: Uuid)
    requires Next(members, w, Deliver(p, draws), w') && p.msg.body.AskVote?
    requires var n := w.nodes[p.to];
             n.turn <= p.msg.turn && n.leader.None? && n.role in {WaitForCandidate, Follower}
    ensures Packet(p.msg.body.candidate, Message(p.to, p.msg.turn, Vote)) in w'.net
    ensures d in draws.forwards ==> Packet(d, p.msg) in w'.net
  {
    var n := w.nodes[p.to];
    var w1 := w.(net := w.net - multiset{p});
    var o := OnMessage(p.to, members, n, p.msg, draws);
    InSent(w1, p.to, o, Packet(p.msg.body.candidate, Message(p.to, p.msg.turn, Vote)));
    if d in draws.forwards {
      ToAllHas(draws.forwards, p.msg, d);
      InSent(w1, p.to, o, Packet(d, p.msg));
    }
  }

  /** What the announcement of another node does. In the receiver's own turn, a node that stands, follows or has voted
      follows the node announced, with its votes forgotten unless it knew already; one that waits goes on waiting, and
      none that leads is ever met. A receiver of an earlier turn takes the leader over only if it was following; else
      it waits in the new turn. In a later one nothing happens to it. */
  lemma AnnouncementIsRecorded(members: seq<Uuid>, run: seq<World>, j: nat, p: Packet, draws: Draws)
    requires IsRun(members, run) && j + 1 < |run| && Next(members, run[j], Deliver(p, draws), run[j + 1])
    requires p.msg.body.LeaderElected? && p.msg.body.elected != p.to
    ensures p.to in run[j].nodes && p.to in run[j + 1].nodes
    ensures var n, n', leader := run[j].nodes[p.to], run[j + 1].nodes[p.to], Some(p.msg.body.elected);
            && (n.turn == p.msg.turn ==> n.role != Leader)
            && if n.turn > p.msg.turn || (n.turn == p.msg.turn && n.role == WaitForCandidate) then n' == n
               else if n.turn == p.msg.turn then
                 n'.leader == leader && n'.role == Follower && n'.turn == n.turn && n'.voteFor == n.voteFor
                 && (if n.leader == leader then n' == n else n'.votes == 0)
               else if n.role == Follower then
                 n'.leader == leader && n'.role == Follower && n'.turn == p.msg.turn
               else n'.role == WaitForCandidate && n'.leader == None && n'.turn == p.msg.turn
  {
    AnotherLeaderUnreachable(members, run, j, p);
    var _, h := HistoryAlong(members, run, j, j);
    assert NodeOk(h, p.to, run[j].nodes[p.to]);
  }

  /** A vote counts for a candidate only, a request only for a node that waits or follows nobody; heartbeats, greetings
      and warnings of a node's own turn are passed over. */
  lemma OthersAreIgnored(members: seq<Uuid>, w: World, p: Packet, draws: Draws, w': World)
    requires Next(members, w, Deliver(p, draws), w') && p.msg.turn == w.nodes[p.to].turn
    requires match p.msg.body
             case Vote => w.nodes[p.to].role != Candidate
             case AskVote(_) => w.nodes[p.to].leader.Some? || w.nodes[p.to].role in {DidVote, Candidate, Leader}
             case LeaderElected(_) => false
             case _ => true
    ensures w' == w.(net := w.net - multiset{p})
  {
    var n := w.nodes[p.to];
    assert OnMessage(p.to, members, n, p.msg, draws) == Outcome(n, []);
    hide OnMessage;
    var net := w.net - multiset{p};
    assert net + multiset([]) == net && w.nodes[p.to := n] == w.nodes;
  }

  // ---------------------------------------------------------------- idle passes

  /** What a node waits for has taken too long. */
  predicate GivesUp(n: Node, timers: Timers) {
    match n.role
    case DidVote => timers.voteTooOld
    case Follower => n.leader.Some? && timers.leaderTooOld
    case Candidate => timers.candidacyTooOld
    case _ => false
  }

  predicate Stands(n: Node, timers: Timers) {
    timers.timeToCandidate && (n.role == WaitForCandidate || (n.role == DidVote && timers.voteTooOld))
  }

  /** The timers alone decide what an idle pass does to a node. One that gives up is in the next turn, waiting and with
      everything forgotten; one that stands has its own vote; a follower without a leader waits; any other stays. */
  lemma TimersDecide(members: seq<Uuid>, w: World, id: Uuid, timers: Timers, voters: seq<Uuid>, w': World)
    requires Next(members, w, Idle(id, timers, voters), w') && |members| >= 3
    ensures id in w.nodes && id in w'.nodes
    ensures var n, n' := w.nodes[id], w'.nodes[id];
            && n'.turn == (if GivesUp(n, timers) then n.turn + 1 else n.turn)
            && if Stands(n, timers) then
                 n'.role == Candidate && n'.votes == 1 && n'.leader == if GivesUp(n, timers) then None else n.leader
               else if GivesUp(n, timers) then n' == Node(WaitForCandidate, None, n.turn + 1, 0, None)
               else if n.role == Follower && n.leader.None? then n' == n.(role := WaitForCandidate)
               else n' == n
  {
  }

  /** A node that stands asks the voters drawn, a leader whose time has come lets all the others know that it lives, and
      nobody else says anything. */
  lemma TimersSpeak(members: seq<Uuid>, w: World, id: Uuid, timers: Timers, voters: seq<Uuid>, w': World, d: Uuid)
    requires Next(members, w, Idle(id, timers, voters), w') && |members| >= 3
    ensures id in w.nodes && id in w'.nodes
    ensures Stands(w.nodes[id], timers) && d in voters ==>
              Packet(d, Message(id, w'.nodes[id].turn, AskVote(id))) in w'.net
    ensures w.nodes[id].role == Leader && timers.timeToBeat && d in members && d != id ==>
              Packet(d, Message(id, w.nodes[id].turn, LeaderHeartbeat(id))) in w'.net
    ensures !Stands(w.nodes[id], timers) && !(w.nodes[id].role == Leader && timers.timeToBeat) ==> w'.net == w.net
  {
    var o := OnIdle(id, members, w.nodes[id], timers, voters);
    var ask, beat := Message(id, o.node.turn, AskVote(id)), Message(id, w.nodes[id].turn, LeaderHeartbeat(id));
    SpokenBy(members, w.nodes[id], id, timers, voters);
    hide OnIdle;
    if Stands(w.nodes[id], timers) && d in voters {
      ToAllHas(voters, ask, d);
      InSent(w, id, o, Packet(d, ask));
    }
    if w.nodes[id].role == Leader && timers.timeToBeat && d in members && d != id {
      ToOthersHas(id, members, beat, d);
      InSent(w, id, o, Packet(d, beat));
    }
    assert w.net + multiset([]) == w.net;
  }

  lemma SpokenBy(members: seq<Uuid>, n: Node, id: Uuid, timers: Timers, voters: seq<Uuid>)
    requires |members| >= 3
    ensures var o := OnIdle(id, members, n, timers, voters);
            o.sent == if Stands(n, timers) then ToAll(voters, Message(id, o.node.turn, AskVote(id)))
                      else if n.role == Leader && timers.timeToBeat then
                        ToOthers(id, members, Message(id, n.turn, LeaderHeartbeat(id)))
                      else []
  {
  }

  // ---------------------------------------------------------------- turns

  /** Somebody is in this turn, or in a later one. */
  ghost predicate SomebodyAt(w: World, turn: nat) {
    exists id :: id in w.nodes && w.nodes[id].turn >= turn
  }

  ghost predicate MessagesHaveSenders(w: World) {
    forall p :: p in w.net ==> SomebodyAt(w, p.msg.turn)
  }

  lemma SentTurns(w: World, id: Uuid, o: Outcome)
    requires id in w.nodes && MessagesHaveSenders(w) && w.nodes[id].turn <= o.node.turn
    requires forall p :: p in o.sent ==> p.msg.turn <= o.node.turn
    ensures MessagesHaveSenders(Apply(w, id, o))
  {
    var w' := Apply(w, id, o);
    forall p | p in w'.net ensures SomebodyAt(w', p.msg.turn) {
      if p in w.net {
        var k :| k in w.nodes && w.nodes[k].turn >= p.msg.turn;
        assert k in w'.nodes && w'.nodes[k].turn >= p.msg.turn;
      } else {
        assert p in multiset(o.sent) && p in o.sent;
        assert id in w'.nodes && w'.nodes[id].turn >= p.msg.turn;
      }
    }
  }

  /** A node is moved to the turn of a message, or by giving up to the turn after its own. */
  lemma OutcomeTurns(members: seq<Uuid>, me: Uuid, n: Node, p: Packet, draws: Draws, timers: Timers, voters: seq<Uuid>)
    ensures var o := OnMessage(me, members, n, p.msg, draws);
            && o.node.turn == (if n.turn < p.msg.turn then p.msg.turn else n.turn)
            && forall q :: q in o.sent ==> q.msg.turn <= o.node.turn
    ensures var o := OnIdle(me, members, n, timers, voters);
            && n.turn <= o.node.turn <= n.turn + 1
            && forall q :: q in o.sent ==> q.msg.turn <= o.node.turn
  {
  }

  lemma FewerMessages(w: World, p: Packet)
    requires MessagesHaveSenders(w)
    ensures MessagesHaveSenders(w.(net := w.net - multiset{p}))
  {
    var w1 := w.(net := w.net - multiset{p});
    forall q | q in w1.net ensures SomebodyAt(w1, q.msg.turn) {
      assert q in w.net && SomebodyAt(w, q.msg.turn);
    }
  }

  lemma DeliveryTurns(members: seq<Uuid>, w: World, p: Packet, draws: Draws, w': World)
    requires Next(members, w, Deliver(p, draws), w') && MessagesHaveSenders(w)
    ensures MessagesHaveSenders(w') && forall t: nat :: SomebodyAt(w', t + 1) ==> SomebodyAt(w, t)
  {
    OutcomeTurns(members, p.to, w.nodes[p.to], p, draws, Timers(false, false, false, false, false), []);
    var o := OnMessage(p.to, members, w.nodes[p.to], p.msg, draws);
    assert SomebodyAt(w, p.msg.turn);
    FewerMessages(w, p);
    hide OnMessage, MessagesHaveSenders, SomebodyAt;
    SentTurns(w.(net := w.net - multiset{p}), p.to, o);
    TurnsBelow(w, w', p.to);
  }

  lemma IdleTurns(members: seq<Uuid>, w: World, id: Uuid, timers: Timers, voters: seq<Uuid>, w': World)
    requires Next(members, w, Idle(id, timers, voters), w') && MessagesHaveSenders(w)
    ensures MessagesHaveSenders(w') && forall t: nat :: SomebodyAt(w', t + 1) ==> SomebodyAt(w, t)
  {
    OutcomeTurns(members, id, w.nodes[id], Packet(id, Message(id, 0, Dummy)), Draws([], []), timers, voters);
    var o := OnIdle(id, members, w.nodes[id], timers, voters);
    hide OnIdle, MessagesHaveSenders, SomebodyAt;
    SentTurns(w, id, o);
    TurnsBelow(w, w', id);
  }

  lemma LossTurns(w: World, p: Packet)
    requires MessagesHaveSenders(w)
    ensures var w' := w.(net := w.net - multiset{p});
            MessagesHaveSenders(w') && forall t: nat :: SomebodyAt(w', t + 1) ==> SomebodyAt(w, t)
  {
    FewerMessages(w, p);
    var w' := w.(net := w.net - multiset{p});
    hide MessagesHaveSenders;
    forall t: nat | SomebodyAt(w', t + 1) ensures SomebodyAt(w, t) {
      var k :| k in w'.nodes && w'.nodes[k].turn >= t + 1;
      assert w.nodes[k].turn >= t;
    }
  }

  /** No step raises the highest turn by more than one. */
  lemma OneTurnAtATime(members: seq<Uuid>, w: World, step: Step, w': World)
    requires Next(members, w, step, w') && MessagesHaveSenders(w)
    ensures MessagesHaveSenders(w')
    ensures forall t: nat :: SomebodyAt(w', t + 1) ==> SomebodyAt(w, t)
  {
    match step {
      case Deliver(p, draws) => DeliveryTurns(members, w, p, draws, w');
      case Idle(id, timers, voters) => IdleTurns(members, w, id, timers, voters, w');
      case Lose(p) => LossTurns(w, p);
    }
  }

  lemma TurnsBelow(w: World, w': World, id: Uuid)
    requires id in w.nodes && w'.nodes.Keys == w.nodes.Keys
    requires forall k :: k in w.nodes && k != id ==> w'.nodes[k] == w.nodes[k]
    requires w'.nodes[id].turn <= w.nodes[id].turn + 1 || SomebodyAt(w, w'.nodes[id].turn)
    ensures forall t: nat :: SomebodyAt(w', t + 1) ==> SomebodyAt(w, t)
  {
    forall t: nat | SomebodyAt(w', t + 1) ensures SomebodyAt(w, t) {
      var k :| k in w'.nodes && w'.nodes[k].turn >= t + 1;
      if k != id || w'.nodes[id].turn <= w.nodes[id].turn + 1 {
        assert w.nodes[k].turn >= t;
      } else {
        var l :| l in w.nodes && w.nodes[l].turn >= w'.nodes[id].turn;
        assert w.nodes[l].turn >= t;
      }
    }
  }

  lemma StepTo(members: seq<Uuid>, run: seq<World>, j: nat) returns (step: Step)
    requires IsRun(members, run) && 0 < j < |run|
    ensures Next(members, run[j - 1], step, run[j])
  {
    assert RaftCluster.Reaches(members, run[j - 1], run[j]);
    step :| Next(members, run[j - 1], step, run[j]);
  }

  lemma FirstTurns(members: seq<Uuid>, run: seq<World>, id: Uuid)
    requires IsRun(members, run) && id in run[0].nodes
    ensures run[0].nodes[id].turn == 0
  {
  }

  lemma {:induction false} SendersAlong(members: seq<Uuid>, run: seq<World>, j: nat)
    requires IsRun(members, run) && j < |run|
    ensures MessagesHaveSenders(run[j])
  {
    if j > 0 {
      SendersAlong(members, run, j - 1);
      var step := StepTo(members, run, j);
      OneTurnAtATime(members, run[j - 1], step, run[j]);
    }
  }

  lemma IsSomebody(w: World, id: Uuid, turn: nat)
    requires id in w.nodes && w.nodes[id].turn >= turn
    ensures SomebodyAt(w, turn)
  {
  }

  lemma Somebody(w: World, turn: nat) returns (id: Uuid)
    requires SomebodyAt(w, turn)
    ensures id in w.nodes && w.nodes[id].turn >= turn
  {
    id :| id in w.nodes && w.nodes[id].turn >= turn;
  }

  /** No turn is skipped: before a node is in some turn, somebody was in every turn before it. */
  lemma {:induction false} NoTurnIsSkipped(members: seq<Uuid>, run: seq<World>, j: nat, id: Uuid, turn: nat)
    returns (i: nat, k: Uuid)
    requires IsRun(members, run) && j < |run| && id in run[j].nodes && turn <= run[j].nodes[id].turn
    ensures i <= j && k in run[i].nodes && run[i].nodes[k].turn == turn
    decreases j
  {
    i, k := j, id;
    if j == 0 {
      FirstTurns(members, run, id);
    }
    hide Next, IsRun, Init, SomebodyAt, MessagesHaveSenders;
    if run[j].nodes[id].turn != turn {
      SendersAlong(members, run, j - 1);
      var step := StepTo(members, run, j);
      OneTurnAtATime(members, run[j - 1], step, run[j]);
      IsSomebody(run[j], id, turn + 1);
      var l := Somebody(run[j - 1], turn);
      i, k := NoTurnIsSkipped(members, run, j - 1, l, turn);
    }
  }

  /** A zone of fewer than three members never does anything. */
  lemma {:induction false} SmallZonesStayIdle(members: seq<Uuid>, run: seq<World>, j: nat)
    requires IsRun(members, run) && j < |run| && |members| < 3
    ensures run[j] == Init(members)
  {
    if j > 0 {
      SmallZonesStayIdle(members, run, j - 1);
      assert RaftCluster.Reaches(members, run[j - 1], run[j]);
      var step :| Next(members, run[j - 1], step, run[j]);
      var w := Init(members);
      if step.Idle? {
        assert w.nodes[step.id := w.nodes[step.id]] == w.nodes;
        assert w.net + multiset([]) == w.net;
      }
    }
  }
}
