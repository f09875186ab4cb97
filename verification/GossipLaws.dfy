/** What the gossip protocol guarantees along every run. */
module GossipLaws {
  import opened Common
  import opened GossipNodes
  import opened GossipNetwork

  // ---------------------------------------------------------------- ownership and refutation

  lemma StepOf(run: seq<World>, steps: seq<Step>, j: nat)
    requires IsRun(run, steps) && j < |steps|
    ensures Inv(run[j]) && Next(run[j], steps[j], run[j + 1])
  {
    InvAlong(run, steps, j);
  }

  /** No table and no report ever shows a node younger than the node itself is. */
  lemma IncarnationsAreOwned(run: seq<World>, steps: seq<Step>, i: nat, holder: Uuid, u: Uuid)
    requires IsRun(run, steps) && i < |run| && holder in run[i].agents
    ensures u in run[i].agents[holder].nodes ==>
              u in run[i].agents && run[i].agents[holder].nodes[u].incarnation <= run[i].agents[u].incarnation
    ensures forall r :: r in run[i].net ==>
              r.uuid in run[i].agents && r.incarnation <= run[i].agents[r.uuid].incarnation
  {
    hide SelfOk, Within, IsRun;
    InvAlong(run, steps, i);
    if u in run[i].agents[holder].nodes { OwnedBy(run[i].agents[holder], Bound(run[i]), u); }
  }

  /** An agent always keeps its own record, alive or leaving and of its own incarnation, so it always
      knows which broadcast to send about itself. */
  lemma OwnRecordSurvives(run: seq<World>, steps: seq<Step>, i: nat, id: Uuid)
    requires IsRun(run, steps) && i < |run| && id in run[i].agents
    ensures var a := run[i].agents[id];
            && a.uuid == id && id in a.nodes && !a.raised
            && a.nodes[id].state in {Alive, Leave} && a.nodes[id].incarnation == a.incarnation
  {
    InvAlong(run, steps, i);
  }

  /** The report with which an agent answers a false report about itself. */
  function Refutation(a: Agent): Report
    requires a.uuid in a.nodes
  {
    ReportOf(Alive, a.uuid, a.nodes[a.uuid].(incarnation := a.incarnation + 1))
  }

  ghost predicate Beaten(w: World, beat: Report) {
    && (forall id :: id in w.agents && id != beat.uuid && beat.uuid in w.agents[id].nodes ==>
          w.agents[id].nodes[beat.uuid].incarnation < beat.incarnation)
    && (forall r :: r in w.net && r.uuid == beat.uuid ==> r == beat || r.incarnation < beat.incarnation)
  }

  /** A living agent answers a false report about itself exactly when the report names its current
      incarnation, and the answer is younger than everything anybody holds or ever heard about it. */
  lemma RefutationWins(run: seq<World>, steps: seq<Step>, i: nat, r: Report)
    requires IsRun(run, steps) && i < |steps| && r.uuid in run[i].agents
    requires steps[i] == Receive(r.uuid, r) && r.kind != Alive
    requires r.uuid in run[i].agents[r.uuid].nodes && run[i].agents[r.uuid].nodes[r.uuid].state == Alive
    ensures var a := run[i].agents[r.uuid];
            && a.uuid == r.uuid
            && (r.incarnation == a.incarnation ==>
                  Refutation(a) in run[i + 1].net && Beaten(run[i + 1], Refutation(a)))
            && (r.incarnation != a.incarnation ==> run[i + 1].agents == run[i].agents)
  {
    InvAlong(run, steps, i);
    assert Next(run[i], steps[i], run[i + 1]);
    InvOf(run[i], steps[i]);
    Heard(run[i], r, run[i + 1]);
  }

  lemma Heard(w: World, r: Report, w': World)
    requires Inv(w) && r.uuid in w.agents && r.kind != Alive && Next(w, Receive(r.uuid, r), w')
    requires SelfOk(w.agents[r.uuid]) && w.agents[r.uuid].uuid == r.uuid
    requires w.agents[r.uuid].nodes[r.uuid].state == Alive
    ensures var a := w.agents[r.uuid];
            && (r.incarnation == a.incarnation ==>
                  Refutation(a) in w'.net && Beaten(w', Refutation(a)))
            && (r.incarnation != a.incarnation ==> w'.agents == w.agents)
  {
    hide Inv;
    var a := w.agents[r.uuid];
    OwnedEverywhere(w, r.uuid);
    if r.incarnation == a.incarnation {
      var a' := Refresh(a);
      assert a'.sent == a.sent + [Refutation(a)];
      assert Said(a') == Said(a) + {Refutation(a)};
    } else {
      assert w'.agents == w.agents;
    }
  }

  lemma OwnedBy(a: Agent, bound: map<Uuid, nat>, u: Uuid)
    requires Within(a, bound)
    ensures u in a.nodes ==> u in bound && a.nodes[u].incarnation <= bound[u]
  {
  }

  lemma OwnedEverywhere(w: World, u: Uuid)
    requires Inv(w) && u in w.agents
    ensures forall id :: id in w.agents && u in w.agents[id].nodes ==>
              w.agents[id].nodes[u].incarnation <= w.agents[u].incarnation
    ensures forall r :: r in w.net && r.uuid == u ==> r.incarnation <= w.agents[u].incarnation
    ensures Said(w.agents[u]) <= w.net
  {
    hide SelfOk, Within;
    var bound := Bound(w);
    assert bound[u] == w.agents[u].incarnation;
    forall id | id in w.agents && u in w.agents[id].nodes
      ensures w.agents[id].nodes[u].incarnation <= w.agents[u].incarnation
    {
      OwnedBy(w.agents[id], bound, u);
    }
  }

  /** What one delivery of an "alive" report does to any other agent: an older record becomes alive at the
      incarnation of the report, any other record stays as it is, and a node not known yet is taken in alive. */
  lemma OneDeliveryRevives(run: seq<World>, steps: seq<Step>, j: nat, beat: Report, holder: Uuid)
    requires IsRun(run, steps) && j < |steps| && steps[j] == Receive(holder, beat) && beat.kind == Alive
    requires holder in run[j].agents && holder != beat.uuid
    ensures holder in run[j + 1].agents
    ensures var a, nodes := run[j].agents[holder], run[j + 1].agents[holder].nodes;
            if beat.uuid in a.nodes then
              && beat.uuid in nodes
              && (a.nodes[beat.uuid].incarnation < beat.incarnation ==>
                    nodes[beat.uuid].state == Alive && nodes[beat.uuid].incarnation == beat.incarnation)
              && (a.nodes[beat.uuid].incarnation >= beat.incarnation ==> nodes[beat.uuid] == a.nodes[beat.uuid])
            else if Admitted(a.scope, beat) then beat.uuid in nodes && nodes[beat.uuid] == FreshRecord(beat)
            else beat.uuid !in nodes
  {
    hide Inv, Within;
    StepOf(run, steps, j);
    InvOf(run[j], steps[j]);
  }

  lemma {:induction false} HeardForEver(run: seq<World>, steps: seq<Step>, i: nat, j: nat)
    requires IsRun(run, steps) && i <= j <= |steps|
    ensures run[i].net <= run[j].net && run[i].agents.Keys == run[j].agents.Keys
    decreases j
  {
    hide Inv, Next, IsRun;
    if i < j {
      HeardForEver(run, steps, i, j - 1);
      RunLength(run, steps);
      StepOf(run, steps, j - 1);
      NextKeeps(run[j - 1], steps[j - 1], run[j]);
    }
  }

  lemma RunLength(run: seq<World>, steps: seq<Step>)
    requires IsRun(run, steps)
    ensures |run| == |steps| + 1
  {
  }

  /** The two together: a living victim answers a false report at step `i`, and the answer is on the network for
      ever. Whenever it reaches another agent, at any later step `j`, a record that is still older becomes alive at
      the new incarnation, any other stays, and the false report changes nothing there any more. */
  lemma FalseReportIsUndone(run: seq<World>, steps: seq<Step>, i: nat, j: nat, r: Report, holder: Uuid)
    requires IsRun(run, steps) && i < j < |steps|
    requires r.kind != Alive && steps[i] == Receive(r.uuid, r) && r.uuid in run[i].agents
    requires var a := run[i].agents[r.uuid];
             && a.uuid == r.uuid && r.uuid in a.nodes && a.nodes[r.uuid].state == Alive
             && r.incarnation == a.incarnation && steps[j] == Receive(holder, Refutation(a))
    requires holder != r.uuid && holder in run[j].agents
    ensures Refutation(run[i].agents[r.uuid]) in run[j].net && holder in run[j + 1].agents
    ensures r.uuid in run[j].agents[holder].nodes ==>
              var rec, nodes := run[j].agents[holder].nodes[r.uuid], run[j + 1].agents[holder].nodes;
              && r.uuid in nodes
              && (rec.incarnation <= r.incarnation ==>
                    nodes[r.uuid].state == Alive && nodes[r.uuid].incarnation == r.incarnation + 1)
              && (rec.incarnation > r.incarnation ==> nodes[r.uuid] == rec)
    ensures var a' := run[j + 1].agents[holder];
            a'.uuid in a'.nodes && forall now :: Hear(a', r, now) == a'
  {
    hide Inv, Beaten, Next, IsRun;
    RefutationWins(run, steps, i, r);
    RunLength(run, steps);
    HeardForEver(run, steps, i + 1, j);
    OneDeliveryRevives(run, steps, j, Refutation(run[i].agents[r.uuid]), holder);
    OwnRecordSurvives(run, steps, j + 1, holder);
  }

  // ---------------------------------------------------------------- progress and the number of broadcasts

  function Rank(s: State): nat {
    match s
    case Alive => 0
    case Suspect => 1
    case Dead => 2
    case Leave => 3
  }

  /** Younger in the order of incarnation first, then alive < suspect < dead < leave. */
  predicate Older(rec: Record, rec': Record) {
    rec.incarnation < rec'.incarnation
    || (rec.incarnation == rec'.incarnation && Rank(rec.state) < Rank(rec'.state))
  }

  function Count(sent: seq<Report>, u: Uuid): nat {
    if sent == [] then 0
    else Count(sent[..|sent| - 1], u) + if sent[|sent| - 1].uuid == u then 1 else 0
  }

  lemma CountPush(sent: seq<Report>, r: Report, u: Uuid)
    ensures Count(sent + [r], u) == Count(sent, u) + if r.uuid == u then 1 else 0
  {
    assert (sent + [r])[..|sent|] == sent;
  }

  /** Either nothing happened about `u`, or its record moved strictly up and that record was broadcast, once. */
  ghost predicate Progress(a: Agent, a': Agent, u: Uuid) {
    || (Count(a'.sent, u) == Count(a.sent, u) && (u in a.nodes <==> u in a'.nodes)
        && (u in a.nodes ==> a'.nodes[u] == a.nodes[u]))
    || (u in a'.nodes && (u in a.nodes ==> Older(a.nodes[u], a'.nodes[u]))
        && Count(a'.sent, u) == Count(a.sent, u) + 1
        && a'.sent != [] && a'.sent[|a'.sent| - 1] == ReportOf(a'.nodes[u].state, u, a'.nodes[u]))
  }

  lemma TellProgress(a: Agent, v: Uuid, rec: Record, u: Uuid)
    requires v in a.nodes ==> Older(a.nodes[v], rec)
    ensures Progress(a, Tell(a, v, rec), u)
  {
    hide Count;
    CountPush(a.sent, ReportOf(rec.state, v, rec), u);
  }

  lemma RefreshProgress(a: Agent, u: Uuid)
    requires a.uuid in a.nodes && u != a.uuid
    ensures Progress(a, Refresh(a), u)
  {
    hide Count;
    var me := a.nodes[a.uuid].(incarnation := a.incarnation + 1);
    CountPush(a.sent, ReportOf(me.state, a.uuid, me), u);
  }

  lemma SuspectProgress(a: Agent, r: Report, now: int, u: Uuid)
    requires SelfOk(a) && u != a.uuid
    ensures Progress(a, SetSuspect(a, r, now), u)
  {
    hide Count, Refresh, Tell;
    RefreshProgress(a, u);
    if r.uuid in a.nodes && a.nodes[r.uuid].state == Alive && r.incarnation >= a.nodes[r.uuid].incarnation {
      TellProgress(a, r.uuid,
                   a.nodes[r.uuid].(incarnation := r.incarnation, state := Suspect, suspectTime := Some(now)), u);
    }
  }

  lemma LeaveProgress(a: Agent, r: Report, force: bool, now: int, u: Uuid)
    requires SelfOk(a) && u != a.uuid
    ensures Progress(a, SetLeave(a, r, force, now), u)
  {
    hide Count, Tell;
    RefreshProgress(a, u);
    RefreshProgress(a.(nodes := a.nodes[a.uuid := a.nodes[a.uuid].(state := Leave)]), u);
    if r.uuid in a.nodes && a.nodes[r.uuid].state != Leave && r.incarnation >= a.nodes[r.uuid].incarnation {
      TellProgress(a, r.uuid,
                   a.nodes[r.uuid].(incarnation := r.incarnation, state := Leave, leaveTime := Some(now)), u);
    }
  }

  /** Every report an agent accepts about another node moves the record strictly up. */
  lemma HearProgress(a: Agent, r: Report, now: int, u: Uuid)
    requires SelfOk(a) && u != a.uuid
    ensures Progress(a, Hear(a, r, now), u)
  {
    hide Count, SetSuspect, SetLeave, Refresh, Tell;
    SuspectProgress(a, r, now, u);
    LeaveProgress(a, r, false, now, u);
    if r.kind == Alive {
      if r.uuid == a.uuid {
        RefreshProgress(a.(incarnation := r.incarnation), u);
      } else if r.uuid !in a.nodes || r.incarnation > a.nodes[r.uuid].incarnation {
        TellProgress(a, r.uuid, FreshRecord(r), u);
      }
    }
  }

  /** 4 * incarnation + rank, plus one; zero for a node the agent does not know. */
  function Height(a: Agent, u: Uuid): nat {
    if u in a.nodes then 4 * a.nodes[u].incarnation + Rank(a.nodes[u].state) + 1 else 0
  }

  /** Broadcasts about `u` are paid for by the height of its record. */
  ghost predicate PaidFor(a: Agent, a': Agent, u: Uuid) {
    Count(a'.sent, u) + Height(a, u) <= Count(a.sent, u) + Height(a', u)
  }

  lemma ProgressPays(a: Agent, a': Agent, u: Uuid)
    requires Progress(a, a', u)
    ensures PaidFor(a, a', u)
  {
  }

  lemma {:induction false} ExpireAllPays(a: Agent, order: seq<Uuid>, timeout: nat, now: int, u: Uuid)
    ensures PaidFor(a, ExpireAll(a, order, timeout, now), u)
    decreases |order|
  {
    if order != [] {
      var v := order[0];
      if v in a.nodes && TurnsDead(a.nodes[v], timeout, now) {
        TellProgress(a, v, a.nodes[v].(state := Dead), u);
        ProgressPays(a, ExpireOne(a, v, timeout, now), u);
      }
      ExpireAllPays(ExpireOne(a, v, timeout, now), order[1..], timeout, now, u);
    }
  }

  lemma {:induction false} ExpireAllOn(a: Agent, order: seq<Uuid>, timeout: nat, now: int, u: Uuid)
    ensures var a' := ExpireAll(a, order, timeout, now);
            && (u in a'.nodes <==> u in a.nodes)
            && (u in a.nodes ==>
                  || a'.nodes[u] == a.nodes[u]
                  || (a'.nodes[u].state == Dead && TurnsDead(a.nodes[u], timeout, now)))
    decreases |order|
  {
    if order != [] {
      ExpireAllOn(ExpireOne(a, order[0], timeout, now), order[1..], timeout, now, u);
    }
  }

  lemma ActPays(a: Agent, step: Step, now: int, u: Uuid)
    requires SelfOk(a) && u != a.uuid
    requires step.Answered? ==> step.target != u
    requires u in a.nodes ==> u in Act(a, step, now).nodes
    ensures PaidFor(a, Act(a, step, now), u)
  {
    hide Hear, SetSuspect, SetLeave, Refresh, Count, ExpireAll;
    match step {
      case Receive(_, r) => HearProgress(a, r, now, u);
      case Merge(_, r) =>
        if MergeNode(a, r, now) != a { HearProgress(a, r, now, u); }
      case Unanswered(_, v) =>
        if v in a.nodes { SuspectProgress(a, ReportOf(Suspect, v, a.nodes[v]), now, u); }
      case ForceLeave(_, v) =>
        if v in a.nodes { LeaveProgress(a, ReportOf(Leave, v, a.nodes[v]), true, now, u); }
      case Age(_, order) =>
        ExpireAllPays(a, order, SuspectTimeout(|a.nodes|), now, u);
        ExpireAllOn(a, order, SuspectTimeout(|a.nodes|), now, u);
      case Renew(_) => RefreshProgress(a, u);
      case _ =>
    }
  }

  /** The agent never pings `u` itself and never forgets it. */
  ghost predicate Undisturbed(run: seq<World>, steps: seq<Step>, id: Uuid, u: Uuid, m: nat)
    requires |run| == |steps| + 1 && m <= |steps|
  {
    forall i :: 0 <= i < m ==>
      && steps[i] != Answered(id, u)
      && (id in run[i].agents && u in run[i].agents[id].nodes ==>
            id in run[i + 1].agents && u in run[i + 1].agents[id].nodes)
  }

  lemma NextPays(w: World, step: Step, w': World, id: Uuid, u: Uuid)
    requires Inv(w) && Next(w, step, w') && id in w.agents && id != u && step != Answered(id, u)
    requires u in w.agents[id].nodes ==> id in w'.agents && u in w'.agents[id].nodes
    ensures id in w'.agents && PaidFor(w.agents[id], w'.agents[id], u)
  {
    hide Inv, Act, Within, Count, SelfOk;
    if !step.Tick? && step.id == id {
      InvOf(w, step);
      ActPays(w.agents[id], step, w.clock, u);
    }
  }

  lemma {:induction false} BroadcastsArePaid(run: seq<World>, steps: seq<Step>, m: nat, id: Uuid, u: Uuid)
    requires IsRun(run, steps) && m <= |steps| && id in run[m].agents && id != u
    requires Undisturbed(run, steps, id, u, m)
    ensures Count(run[m].agents[id].sent, u) <= Height(run[m].agents[id], u)
  {
    if m > 0 {
      StepOf(run, steps, m - 1);
      NextKeeps(run[m - 1], steps[m - 1], run[m]);
      BroadcastsArePaid(run, steps, m - 1, id, u);
      NextPays(run[m - 1], steps[m - 1], run[m], id, u);
    }
  }

  /** As long as the node u is at most I incarnations old, an agent that neither pings nor forgets it
      broadcasts about it at most 4 * (I + 1) times in a whole run. */
  lemma BroadcastsAreBounded(run: seq<World>, steps: seq<Step>, m: nat, id: Uuid, u: Uuid, limit: nat)
    requires IsRun(run, steps) && m <= |steps| && id in run[m].agents && id != u
    requires Undisturbed(run, steps, id, u, m)
    requires u in run[m].agents ==> run[m].agents[u].incarnation <= limit
    ensures Count(run[m].agents[id].sent, u) <= 4 * (limit + 1)
  {
    BroadcastsArePaid(run, steps, m, id, u);
    IncarnationsAreOwned(run, steps, m, id, u);
  }

  // ---------------------------------------------------------------- who is declared dead

  predicate Suspected(w: World, id: Uuid, u: Uuid) {
    id in w.agents && u in w.agents[id].nodes && w.agents[id].nodes[u].state == Suspect
  }

  predicate DeclaredDead(w: World, id: Uuid, u: Uuid) {
    id in w.agents && u in w.agents[id].nodes && w.agents[id].nodes[u].state == Dead
  }

  /** What an agent did about a record in a step other than ageing: it never comes out dead, and when it
      comes out suspected, the suspicion starts now or was there before. */
  lemma ActOn(a: Agent, step: Step, now: int, u: Uuid)
    requires SelfOk(a) && !step.Age?
    ensures var a' := Act(a, step, now);
            u in a'.nodes ==>
              && (a'.nodes[u].state == Dead ==> u in a.nodes && a.nodes[u].state == Dead)
              && (a'.nodes[u].state == Suspect ==>
                    a'.nodes[u].suspectTime == Some(now)
                    || (u in a.nodes && a'.nodes[u] == a.nodes[u]))
  {
  }

  /** The same, for a step of the whole world. */
  lemma NextOn(w: World, step: Step, w': World, id: Uuid, u: Uuid)
    requires Inv(w) && Next(w, step, w') && id in w'.agents && u in w'.agents[id].nodes
    ensures Suspected(w', id, u) ==>
              || (w'.clock == w.clock && w'.agents[id].nodes[u].suspectTime == Some(w.clock))
              || (Suspected(w, id, u) && w'.agents[id].nodes[u] == w.agents[id].nodes[u])
    ensures DeclaredDead(w', id, u) && !DeclaredDead(w, id, u) ==>
              && step.Age? && step.id == id && Suspected(w, id, u)
              && TurnsDead(w.agents[id].nodes[u], SuspectTimeout(|w.agents[id].nodes|), w.clock)
  {
    hide Inv, Act, Within;
    if !step.Tick? && step.id == id {
      InvOf(w, step);
      var a := w.agents[id];
      if step.Age? {
        var timeout := SuspectTimeout(|a.nodes|);
        ExpireAllOn(a, step.order, timeout, w.clock, u);
        AgeIs(a, step, w.clock);
      } else {
        ActOn(a, step, w.clock, u);
      }
    }
  }

  lemma AgeIs(a: Agent, step: Step, now: int)
    requires step.Age? && a.uuid in a.nodes
    ensures var kept := ExpireAll(a, step.order, SuspectTimeout(|a.nodes|), now).nodes;
            forall u :: u in Act(a, step, now).nodes ==> u in kept && Act(a, step, now).nodes[u] == kept[u]
  {
  }

  lemma NobodySuspectedAtFirst(run: seq<World>, steps: seq<Step>, id: Uuid, u: Uuid)
    requires IsRun(run, steps)
    ensures |run| == |steps| + 1 && !Suspected(run[0], id, u)
  {
    var w := run[0];
    if id in w.agents && u in w.agents[id].nodes {
      assert u in w.agents[id].nodes.Keys;
    }
  }

  ghost predicate SuspectedFrom(run: seq<World>, i: nat, j: nat, id: Uuid, u: Uuid)
    requires i <= j < |run|
  {
    forall k :: i <= k <= j ==> Suspected(run[k], id, u)
  }

  /** A suspected record tells when the suspicion began, and has been suspected in every world since. */
  lemma {:induction false} SuspectedSince(run: seq<World>, steps: seq<Step>, j: nat, id: Uuid, u: Uuid)
    returns (i: nat)
    requires IsRun(run, steps) && j < |run| && Suspected(run[j], id, u)
    ensures i <= j && SuspectedFrom(run, i, j, id, u)
    ensures run[j].agents[id].nodes[u].suspectTime == Some(run[i].clock)
    decreases j
  {
    hide Inv, Next, IsRun;
    i := j;
    NobodySuspectedAtFirst(run, steps, id, u);
    if j > 0 {
      StepOf(run, steps, j - 1);
      var w, w' := run[j - 1], run[j];
      NextOn(w, steps[j - 1], w', id, u);
      if w'.clock != w.clock || w'.agents[id].nodes[u].suspectTime != Some(w.clock) {
        i := SuspectedSince(run, steps, j - 1, id, u);
      }
    }
  }

  /** A node becomes dead in a table only by ageing there: it has been suspected by that very table, without
      interruption, for longer than the local timeout. No message makes anybody dead. */
  lemma DeadOnlyAfterTimeout(run: seq<World>, steps: seq<Step>, j: nat, id: Uuid, u: Uuid)
    returns (i: nat)
    requires IsRun(run, steps) && j < |steps|
    requires DeclaredDead(run[j + 1], id, u) && !DeclaredDead(run[j], id, u)
    ensures steps[j].Age? && steps[j].id == id && id in run[j].agents && i <= j
    ensures SuspectedFrom(run, i, j, id, u)
    ensures run[j].clock - run[i].clock > SuspectTimeout(|run[j].agents[id].nodes|)
  {
    StepOf(run, steps, j);
    hide Inv, Next, IsRun;
    NextOn(run[j], steps[j], run[j + 1], id, u);
    i := SuspectedSince(run, steps, j, id, u);
  }
}
