/** A zone is never stuck: whatever happened, some node can still win, and all the others follow it. */
module RaftRecovery {
  import opened Common
  import opened RaftNodes
  import opened RaftCluster
  import opened RaftLiveness

  function Last(run: seq<World>): World
    requires run != []
  {
    run[|run| - 1]
  }

  /** A longer run that begins like this one. */
  ghost predicate Continues(members: seq<Uuid>, run: seq<World>, run': seq<World>) {
    run' != [] && IsRun(members, run') && run <= run'
  }

  lemma Go(members: seq<Uuid>, run: seq<World>, step: Step, w': World) returns (run': seq<World>)
    requires IsRun(members, run) && Next(members, Last(run), step, w')
    ensures Continues(members, run, run') && Last(run') == w'
  {
    run' := run + [w'];
    hide Next;
    forall i, j | 0 <= i && j == i + 1 && j < |run'| ensures RaftCluster.Reaches(members, run'[i], run'[j]) {
      if j < |run| {
        assert RaftCluster.Reaches(members, run[i], run[j]);
      }
    }
  }

  lemma AndOn(members: seq<Uuid>, run: seq<World>, run1: seq<World>, run2: seq<World>)
    requires Continues(members, run, run1) && Continues(members, run1, run2)
    ensures Continues(members, run, run2)
  {
    assert run2[..|run|] == run1[..|run|];
  }

  /** Members are listed once each. */
  ghost predicate Distinct(members: seq<Uuid>) {
    forall i, j :: 0 <= i < j < |members| ==> members[i] != members[j]
  }

  function Others(members: seq<Uuid>, a: Uuid): seq<Uuid> {
    if members == [] then []
    else if members[0] == a then Others(members[1..], a)
    else [members[0]] + Others(members[1..], a)
  }

  lemma {:induction false} OthersAre(members: seq<Uuid>, a: Uuid)
    requires Distinct(members)
    ensures forall id :: id in Others(members, a) <==> id in members && id != a
    ensures Distinct(Others(members, a))
    ensures |Others(members, a)| == |members| - if a in members then 1 else 0
  {
    if members != [] {
      OthersAre(members[1..], a);
      assert members[0] !in members[1..];
      assert members == [members[0]] + members[1..];
    }
  }

  lemma NodesAre(members: seq<Uuid>, run: seq<World>)
    requires IsRun(members, run)
    ensures forall id :: id in Last(run).nodes <==> id in members
    ensures forall id :: id in Last(run).nodes && Last(run).nodes[id].leader.Some? ==>
              Last(run).nodes[id].role == Follower
  {
    var _, h := HistoryAlong(members, run, |run| - 1, |run| - 1);
    assert Last(run).nodes.Keys == set id | id in members;
    var w := Last(run);
    forall id | id in w.nodes ensures w.nodes[id].leader.Some? ==> w.nodes[id].role == Follower {
      assert NodeOk(h, id, w.nodes[id]);
    }
  }

  // ---------------------------------------------------------------- everybody waits, or leads

  predicate Waits(n: Node) {
    n.role == WaitForCandidate && n.leader.None?
  }

  predicate Settled(n: Node) {
    n.role == Leader || Waits(n)
  }

  /** Every node but `id` is as it was. */
  ghost predicate OnlyMoves(w: World, w': World, id: Uuid) {
    w'.nodes.Keys == w.nodes.Keys && forall k :: k in w.nodes && k != id ==> w'.nodes[k] == w.nodes[k]
  }

  /** Sooner or later a node gives up what it was waiting for. */
  lemma Settle(members: seq<Uuid>, run: seq<World>, id: Uuid) returns (run': seq<World>)
    requires IsRun(members, run) && |members| >= RAFT_MINIMAL_MEMBERS_NB && id in Last(run).nodes
    ensures Continues(members, run, run') && OnlyMoves(Last(run), Last(run'), id) && id in Last(run').nodes
    ensures Settled(Last(run').nodes[id])
  {
    NodesAre(members, run);
    assert run != [];
    hide IsRun;
    var w := Last(run);
    var late := Timers(true, true, true, false, false);
    var o := OnIdle(id, members, w.nodes[id], late, []);
    assert Next(members, w, Idle(id, late, []), Apply(w, id, o));
    run' := Go(members, run, Idle(id, late, []), Apply(w, id, o));
  }

  lemma {:induction false} SettleAll(members: seq<Uuid>, run: seq<World>, k: nat) returns (run': seq<World>)
    requires IsRun(members, run) && |members| >= RAFT_MINIMAL_MEMBERS_NB && k <= |members|
    ensures Continues(members, run, run')
    ensures forall i :: 0 <= i < k ==> members[i] in Last(run').nodes && Settled(Last(run').nodes[members[i]])
  {
    assert run != [];
    hide IsRun, Settled;
    run' := run;
    if k > 0 {
      run' := SettleAll(members, run, k - 1);
      NodesAre(members, run');
      run' := Settle(members, run', members[k - 1]);
    }
  }

  function Heartbeat(high: Uuid, turn: nat, low: Uuid): Packet {
    Packet(low, Message(high, turn, LeaderHeartbeat(high)))
  }

  const BEAT := Timers(false, false, false, false, true)

  lemma Beats(members: seq<Uuid>, w: World, high: Uuid, low: Uuid) returns (w': World)
    requires |members| >= RAFT_MINIMAL_MEMBERS_NB && low in members && high != low
    requires high in w.nodes && w.nodes[high].role == Leader
    ensures Next(members, w, Idle(high, BEAT, []), w')
    ensures w'.nodes == w.nodes && Heartbeat(high, w.nodes[high].turn, low) in w'.net
  {
    var msg := Message(high, w.nodes[high].turn, LeaderHeartbeat(high));
    var o := OnIdle(high, members, w.nodes[high], BEAT, []);
    assert o == Outcome(w.nodes[high], ToOthers(high, members, msg));
    w' := Apply(w, high, o);
    ToOthersHas(high, members, msg, low);
    InSent(w, high, o, Heartbeat(high, w.nodes[high].turn, low));
  }

  lemma Yields(members: seq<Uuid>, w: World, high: Uuid, turn: nat, low: Uuid) returns (w': World)
    requires low in w.nodes && w.nodes[low].role == Leader && w.nodes[low].turn < turn
    requires Heartbeat(high, turn, low) in w.net
    ensures Next(members, w, Deliver(Heartbeat(high, turn, low), Draws([], [])), w')
    ensures OnlyMoves(w, w', low) && Waits(w'.nodes[low])
  {
    var p := Heartbeat(high, turn, low);
    w' := Apply(w.(net := w.net - multiset{p}), low, OnMessage(low, members, w.nodes[low], p.msg, Draws([], [])));
  }

  /** Of two leaders the one of the later turn makes the other one wait, with a heartbeat. */
  lemma Dethrone(members: seq<Uuid>, run: seq<World>, high: Uuid, low: Uuid) returns (run': seq<World>)
    requires IsRun(members, run) && |members| >= RAFT_MINIMAL_MEMBERS_NB
    requires low in members && high in Last(run).nodes && low in Last(run).nodes && high != low
    requires Last(run).nodes[high].role == Last(run).nodes[low].role == Leader
    requires Last(run).nodes[low].turn < Last(run).nodes[high].turn
    ensures Continues(members, run, run') && OnlyMoves(Last(run), Last(run'), low)
    ensures low in Last(run').nodes && Waits(Last(run').nodes[low])
  {
    assert run != [];
    hide IsRun, Next, Waits;
    var turn := Last(run).nodes[high].turn;
    var w1 := Beats(members, Last(run), high, low);
    var run1 := Go(members, run, Idle(high, BEAT, []), w1);
    var w2 := Yields(members, w1, high, turn, low);
    run' := Go(members, run1, Deliver(Heartbeat(high, turn, low), Draws([], [])), w2);
    AndOn(members, run, run1, run');
  }

  /** Not all nodes of a zone can go on leading. */
  lemma SomebodyWaits(members: seq<Uuid>, run: seq<World>) returns (run': seq<World>, a: Uuid)
    requires IsRun(members, run) && |members| >= RAFT_MINIMAL_MEMBERS_NB && Distinct(members)
    requires forall id :: id in members ==> id in Last(run).nodes && Settled(Last(run).nodes[id])
    ensures Continues(members, run, run') && a in members && a in Last(run').nodes && Waits(Last(run').nodes[a])
    ensures forall id :: id in members ==> id in Last(run').nodes && Settled(Last(run').nodes[id])
  {
    run' := run;
    var w := Last(run);
    if id :| id in members && Waits(w.nodes[id]) {
      a := id;
    } else {
      var b, c := members[0], members[1];
      assert b in members && c in members && b != c;
      if w.nodes[b].turn == w.nodes[c].turn {
        assert LeadsAt(run[|run| - 1], b, w.nodes[b].turn) && LeadsAt(run[|run| - 1], c, w.nodes[b].turn);
        ElectionSafety(members, run, |run| - 1, |run| - 1, b, c, w.nodes[b].turn);
        assert false;
      }
      var later := w.nodes[b].turn < w.nodes[c].turn;
      var high, low := if later then c else b, if later then b else c;
      hide IsRun;
      run' := Dethrone(members, run, high, low);
      a := low;
    }
  }

  // ---------------------------------------------------------------- one node ahead of all others

  lemma {:induction false} Bound(w: World, ids: seq<Uuid>) returns (turn: nat)
    ensures forall i :: 0 <= i < |ids| && ids[i] in w.nodes ==> w.nodes[ids[i]].turn < turn
  {
    turn := 0;
    if ids != [] {
      var rest := Bound(w, ids[1..]);
      turn := if ids[0] in w.nodes && w.nodes[ids[0]].turn >= rest then w.nodes[ids[0]].turn + 1 else rest;
      assert forall i :: 1 <= i < |ids| ==> ids[i] == ids[1..][i - 1];
    }
  }

  /** A candidacy that nobody hears of ends in the next turn. */
  lemma TryInVain(members: seq<Uuid>, run: seq<World>, a: Uuid) returns (run': seq<World>)
    requires IsRun(members, run) && |members| >= RAFT_MINIMAL_MEMBERS_NB
    requires a in Last(run).nodes && Waits(Last(run).nodes[a])
    ensures Continues(members, run, run') && OnlyMoves(Last(run), Last(run'), a)
    ensures a in Last(run').nodes && Waits(Last(run').nodes[a])
    ensures Last(run').nodes[a].turn == Last(run).nodes[a].turn + 1
  {
    assert run != [];
    hide IsRun;
    var w := Last(run);
    var stand, fail := Timers(false, false, false, true, false), Timers(false, false, true, false, false);
    var o := OnIdle(a, members, w.nodes[a], stand, []);
    var w1 := Apply(w, a, o);
    run' := Go(members, run, Idle(a, stand, []), w1);
    var o1 := OnIdle(a, members, w1.nodes[a], fail, []);
    run' := Go(members, run', Idle(a, fail, []), Apply(w1, a, o1));
  }

  lemma {:induction false} GetAhead(members: seq<Uuid>, run: seq<World>, a: Uuid, turn: nat) returns (run': seq<World>)
    requires IsRun(members, run) && |members| >= RAFT_MINIMAL_MEMBERS_NB
    requires a in Last(run).nodes && Waits(Last(run).nodes[a])
    ensures Continues(members, run, run') && OnlyMoves(Last(run), Last(run'), a)
    ensures a in Last(run').nodes && Waits(Last(run').nodes[a]) && Last(run').nodes[a].turn >= turn
    decreases turn - Last(run).nodes[a].turn
  {
    assert run != [];
    hide IsRun, Waits;
    run' := run;
    if Last(run).nodes[a].turn < turn {
      run' := TryInVain(members, run, a);
      run' := GetAhead(members, run', a, turn);
    }
  }

  // ---------------------------------------------------------------- the election

  /** A node that will give its vote of the turn to the first who asks. */
  predicate MayVote(n: Node, turn: nat) {
    (Waits(n) && n.turn <= turn) || (n.role == Leader && n.turn < turn)
  }

  predicate HasVoted(n: Node, turn: nat) {
    n.role == DidVote && n.leader.None? && n.turn == turn
  }

  predicate Follows(n: Node, a: Uuid, turn: nat) {
    n.role == Follower && n.leader == Some(a) && n.turn == turn
  }

  function Ask(a: Uuid, turn: nat, b: Uuid): Packet {
    Packet(b, Message(a, turn, AskVote(a)))
  }

  function VoteFor(a: Uuid, turn: nat, b: Uuid): Packet {
    Packet(a, Message(b, turn, Vote))
  }

  function Announcement(a: Uuid, turn: nat, b: Uuid): Packet {
    Packet(b, Message(a, turn, LeaderElected(a)))
  }

  lemma OtherPacketsStay(net: multiset<Packet>, p: Packet, sent: seq<Packet>, q: Packet)
    requires q in net && q != p
    ensures q in net - multiset{p} + multiset(sent)
  {
  }

  /** The first `k` of the others have voted, and the rest have been asked. */
  ghost predicate Polled(w: World, a: Uuid, turn: nat, others: seq<Uuid>, k: nat) {
    && a in w.nodes && w.nodes[a].role == Candidate && w.nodes[a].votes == 1 && w.nodes[a].turn == turn
    && (forall i :: 0 <= i < |others| ==> others[i] in w.nodes && others[i] != a)
    && (forall i :: 0 <= i < k && i < |others| ==>
         HasVoted(w.nodes[others[i]], turn) && VoteFor(a, turn, others[i]) in w.net)
    && (forall i :: k <= i < |others| ==> MayVote(w.nodes[others[i]], turn) && Ask(a, turn, others[i]) in w.net)
  }

  const STAND := Timers(false, false, false, true, false)

  lemma StandsUp(members: seq<Uuid>, w: World, a: Uuid, voters: seq<Uuid>)
    requires |members| >= RAFT_MINIMAL_MEMBERS_NB && a in w.nodes && Waits(w.nodes[a])
    ensures Next(members, w, Idle(a, STAND, voters), Apply(w, a, BecomeCandidate(a, w.nodes[a], voters)))
  {
    assert OnIdle(a, members, w.nodes[a], STAND, voters) == BecomeCandidate(a, w.nodes[a], voters);
  }

  lemma Stand(members: seq<Uuid>, run: seq<World>, a: Uuid) returns (run': seq<World>)
    requires IsRun(members, run) && |members| >= RAFT_MINIMAL_MEMBERS_NB && Distinct(members)
    requires a in Last(run).nodes && Waits(Last(run).nodes[a])
    requires forall id :: id in members && id != a ==>
               id in Last(run).nodes && MayVote(Last(run).nodes[id], Last(run).nodes[a].turn)
    ensures Continues(members, run, run') && OnlyMoves(Last(run), Last(run'), a)
    ensures Polled(Last(run'), a, Last(run).nodes[a].turn, Others(members, a), 0)
  {
    var w, others := Last(run), Others(members, a);
    var turn := w.nodes[a].turn;
    OthersAre(members, a);
    hide IsRun;
    var o := BecomeCandidate(a, w.nodes[a], others);
    StandsUp(members, w, a, others);
    run' := Go(members, run, Idle(a, STAND, others), Apply(w, a, o));
    forall i | 0 <= i < |others|
      ensures others[i] in members && others[i] != a && Ask(a, turn, others[i]) in Last(run').net
    {
      assert others[i] in others;
      ToAllHas(others, Message(a, turn, AskVote(a)), others[i]);
      InSent(w, a, o, Ask(a, turn, others[i]));
    }
    hide MayVote, Next, HasVoted;
  }

  lemma Grants(members: seq<Uuid>, n: Node, a: Uuid, turn: nat, b: Uuid)
    requires MayVote(n, turn)
    ensures var o := OnMessage(b, members, n, Ask(a, turn, b).msg, Draws([], []));
            HasVoted(o.node, turn) && VoteFor(a, turn, b) in o.sent
  {
    var o := OnMessage(b, members, n, Ask(a, turn, b).msg, Draws([], []));
    assert o.sent[|o.sent| - 1] == VoteFor(a, turn, b);
  }

  /** Whoever may vote votes when asked, in the turn of the candidate. */
  lemma Votes(members: seq<Uuid>, w: World, a: Uuid, turn: nat, b: Uuid)
    returns (w': World)
    requires b in w.nodes && b != a && MayVote(w.nodes[b], turn) && Ask(a, turn, b) in w.net
    ensures Next(members, w, Deliver(Ask(a, turn, b), Draws([], [])), w')
    ensures OnlyMoves(w, w', b) && HasVoted(w'.nodes[b], turn) && VoteFor(a, turn, b) in w'.net
    ensures forall q :: q in w.net && q != Ask(a, turn, b) ==> q in w'.net
  {
    var p := Ask(a, turn, b);
    var o := OnMessage(b, members, w.nodes[b], p.msg, Draws([], []));
    Grants(members, w.nodes[b], a, turn, b);
    hide OnMessage, HasVoted, MayVote;
    var w1 := w.(net := w.net - multiset{p});
    w' := Apply(w1, b, o);
    InSent(w1, b, o, VoteFor(a, turn, b));
  }

  lemma PollOne(members: seq<Uuid>, w: World, a: Uuid, turn: nat, others: seq<Uuid>, k: nat) returns (w': World)
    requires Polled(w, a, turn, others, k) && k < |others| && Distinct(others)
    ensures Next(members, w, Deliver(Ask(a, turn, others[k]), Draws([], [])), w')
    ensures Polled(w', a, turn, others, k + 1)
  {
    w' := Votes(members, w, a, turn, others[k]);
    hide Next, HasVoted, MayVote;
  }

  lemma {:induction false} PollAll(members: seq<Uuid>, run: seq<World>, a: Uuid, turn: nat, others: seq<Uuid>, k: nat)
    returns (run': seq<World>)
    requires IsRun(members, run) && Distinct(others) && k <= |others| && Polled(Last(run), a, turn, others, k)
    ensures Continues(members, run, run') && Polled(Last(run'), a, turn, others, |others|)
    decreases |others| - k
  {
    run' := run;
    if k < |others| {
      hide IsRun, Polled, Next;
      var w' := PollOne(members, Last(run), a, turn, others, k);
      run' := Go(members, run, Deliver(Ask(a, turn, others[k]), Draws([], [])), w');
      run' := PollAll(members, run', a, turn, others, k + 1);
    }
  }

  /** `k` votes have been counted, and the others are on their way. */
  ghost predicate CountedSo(members: seq<Uuid>, w: World, a: Uuid, turn: nat, others: seq<Uuid>, k: nat) {
    && a in w.nodes && w.nodes[a].turn == turn
    && (if 1 + k < Quorum(|members|) then w.nodes[a].role == Candidate && w.nodes[a].votes == 1 + k
        else w.nodes[a].role == Leader
             && forall b :: b in others ==> Announcement(a, turn, b) in w.net)
    && (forall i :: 0 <= i < |others| ==>
         others[i] in w.nodes && others[i] != a && HasVoted(w.nodes[others[i]], turn))
    && (forall i :: k <= i < |others| ==> VoteFor(a, turn, others[i]) in w.net)
  }

  lemma CountOneVote(members: seq<Uuid>, w: World, a: Uuid, turn: nat, others: seq<Uuid>, k: nat) returns (w': World)
    requires CountedSo(members, w, a, turn, others, k) && k < |others| && Distinct(others) && 1 + k < Quorum(|members|)
    requires forall b :: b in others ==> b in members
    ensures Next(members, w, Deliver(VoteFor(a, turn, others[k]), Draws([], [])), w')
    ensures CountedSo(members, w', a, turn, others, k + 1)
  {
    var p := VoteFor(a, turn, others[k]);
    var o := OnMessage(a, members, w.nodes[a], p.msg, Draws([], []));
    assert o == OnVote(a, members, w.nodes[a]);
    var w1 := w.(net := w.net - multiset{p});
    w' := Apply(w1, a, o);
    if 2 + k >= Quorum(|members|) {
      forall b | b in others ensures Announcement(a, turn, b) in w'.net {
        var i :| 0 <= i < |others| && others[i] == b;
        ToOthersHas(a, members, Message(a, turn, LeaderElected(a)), b);
        InSent(w1, a, o, Announcement(a, turn, b));
      }
    }
  }

  lemma {:induction false} CountAll(members: seq<Uuid>, run: seq<World>, a: Uuid, turn: nat, others: seq<Uuid>, k: nat)
    returns (run': seq<World>)
    requires IsRun(members, run) && Distinct(others) && 1 + k <= Quorum(|members|) <= 1 + |others|
    requires (forall b :: b in others ==> b in members) && CountedSo(members, Last(run), a, turn, others, k)
    ensures Continues(members, run, run')
    ensures CountedSo(members, Last(run'), a, turn, others, Quorum(|members|) - 1)
    decreases Quorum(|members|) - k
  {
    assert run != [];
    hide IsRun, CountedSo, Next;
    run' := run;
    if 1 + k < Quorum(|members|) {
      var w' := CountOneVote(members, Last(run), a, turn, others, k);
      run' := Go(members, run, Deliver(VoteFor(a, turn, others[k]), Draws([], [])), w');
      run' := CountAll(members, run', a, turn, others, k + 1);
    }
  }

  /** The first `k` of the others follow the leader, and the rest have been told of it. */
  ghost predicate Announced(w: World, a: Uuid, turn: nat, others: seq<Uuid>, k: nat) {
    && LeadsAt(w, a, turn)
    && (forall i :: 0 <= i < |others| ==> others[i] in w.nodes && others[i] != a)
    && (forall i :: 0 <= i < k && i < |others| ==> Follows(w.nodes[others[i]], a, turn))
    && (forall i :: k <= i < |others| ==>
         HasVoted(w.nodes[others[i]], turn) && Announcement(a, turn, others[i]) in w.net)
  }

  lemma HearsOfLeader(members: seq<Uuid>, w: World, a: Uuid, turn: nat, b: Uuid) returns (w': World)
    requires b in w.nodes && b != a && HasVoted(w.nodes[b], turn) && Announcement(a, turn, b) in w.net
    ensures Next(members, w, Deliver(Announcement(a, turn, b), Draws([], [])), w')
    ensures OnlyMoves(w, w', b) && Follows(w'.nodes[b], a, turn)
    ensures forall q :: q in w.net && q != Announcement(a, turn, b) ==> q in w'.net
  {
    var p := Announcement(a, turn, b);
    var o := OnMessage(b, members, w.nodes[b], p.msg, Draws([], []));
    w' := Apply(w.(net := w.net - multiset{p}), b, o);
  }

  lemma AnnounceOne(members: seq<Uuid>, w: World, a: Uuid, turn: nat, others: seq<Uuid>, k: nat) returns (w': World)
    requires Announced(w, a, turn, others, k) && k < |others| && Distinct(others)
    ensures Next(members, w, Deliver(Announcement(a, turn, others[k]), Draws([], [])), w')
    ensures Announced(w', a, turn, others, k + 1)
  {
    w' := HearsOfLeader(members, w, a, turn, others[k]);
    hide Next, HasVoted, Follows;
  }

  lemma {:induction false} AnnounceAll(members: seq<Uuid>, run: seq<World>, a: Uuid, turn: nat, others: seq<Uuid>,
                                       k: nat)
    returns (run': seq<World>)
    requires IsRun(members, run) && Distinct(others) && k <= |others| && Announced(Last(run), a, turn, others, k)
    ensures Continues(members, run, run') && Announced(Last(run'), a, turn, others, |others|)
    decreases |others| - k
  {
    run' := run;
    if k < |others| {
      hide IsRun, Announced, Next;
      var w' := AnnounceOne(members, Last(run), a, turn, others, k);
      run' := Go(members, run, Deliver(Announcement(a, turn, others[k]), Draws([], [])), w');
      run' := AnnounceAll(members, run', a, turn, others, k + 1);
    }
  }

  /** The node leads in the turn and all other members follow it. */
  ghost predicate Agreed(members: seq<Uuid>, w: World, a: Uuid, turn: nat) {
    LeadsAt(w, a, turn) && forall id :: id in members && id != a ==> id in w.nodes && Follows(w.nodes[id], a, turn)
  }

  /** A node that waits in a turn that nobody has passed, among others that may vote in it, can win that turn. */
  lemma Elect(members: seq<Uuid>, run: seq<World>, a: Uuid) returns (run': seq<World>)
    requires IsRun(members, run) && |members| >= RAFT_MINIMAL_MEMBERS_NB && Distinct(members) && a in members
    requires a in Last(run).nodes && Waits(Last(run).nodes[a])
    requires forall id :: id in members && id != a ==>
               id in Last(run).nodes && MayVote(Last(run).nodes[id], Last(run).nodes[a].turn)
    ensures Continues(members, run, run') && Agreed(members, Last(run'), a, Last(run).nodes[a].turn)
  {
    var turn, others := Last(run).nodes[a].turn, Others(members, a);
    OthersAre(members, a);
    hide IsRun, MayVote, Next;
    run' := Stand(members, run, a);
    run' := PollAll(members, run', a, turn, others, 0);
    assert CountedSo(members, Last(run'), a, turn, others, 0);
    run' := CountAll(members, run', a, turn, others, 0);
    assert Announced(Last(run'), a, turn, others, 0);
    run' := AnnounceAll(members, run', a, turn, others, 0);
    forall id | id in members && id != a ensures id in Last(run').nodes && Follows(Last(run').nodes[id], a, turn) {
      assert id in others;
    }
  }

  /** Wherever a run has got to, with whatever nodes and packets, it can go on to a moment at which some node leads
      and all the others follow it. */
  lemma ElectionIsAlwaysPossible(members: seq<Uuid>, run: seq<World>) returns (run': seq<World>, a: Uuid, turn: nat)
    requires IsRun(members, run) && |members| >= RAFT_MINIMAL_MEMBERS_NB && Distinct(members)
    ensures Continues(members, run, run') && a in members && Agreed(members, Last(run'), a, turn)
  {
    hide IsRun, Agreed;
    run' := SettleAll(members, run, |members|);
    forall id | id in members ensures id in Last(run').nodes && Settled(Last(run').nodes[id]) {
      var i :| 0 <= i < |members| && members[i] == id;
    }
    run', a := SomebodyWaits(members, run');
    turn := Bound(Last(run'), members);
    var w := Last(run');
    run' := GetAhead(members, run', a, turn);
    turn := Last(run').nodes[a].turn;
    forall id | id in members && id != a ensures id in Last(run').nodes && MayVote(Last(run').nodes[id], turn) {
      var i :| 0 <= i < |members| && members[i] == id;
      assert w.nodes[members[i]].turn < turn;
    }
    run' := Elect(members, run', a);
  }

  /** In particular every member of a zone can win the very first turn. */
  lemma ElectionCanSucceed(members: seq<Uuid>, a: Uuid) returns (run: seq<World>)
    requires |members| >= RAFT_MINIMAL_MEMBERS_NB && Distinct(members) && a in members
    ensures IsRun(members, run) && LeadsAt(Last(run), a, 0)
    ensures forall id :: id in members && id != a ==> id in Last(run).nodes && Follows(Last(run).nodes[id], a, 0)
  {
    run := Elect(members, [Init(members)], a);
  }
}
