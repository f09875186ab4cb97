/** What the steps of the gossip protocol achieve, along every run. */
module GossipSteps {
  import opened Common
  import opened GossipNodes
  import opened GossipNetwork
  import opened GossipLaws

  /** What the invariant and the step say of the agent that takes it. */
  lemma Acts(run: seq<World>, steps: seq<Step>, j: nat)
    requires IsRun(run, steps) && j < |steps| && !steps[j].Tick?
    ensures var w, w', id := run[j], run[j + 1], steps[j].id;
            && id in w.agents && id in w'.agents && w.agents[id].uuid == id && SelfOk(w.agents[id])
            && w'.agents == w.agents[id := Act(w.agents[id], steps[j], w.clock)]
            && (forall r :: r in w'.agents[id].sent ==> r in w'.net)
  {
    StepOf(run, steps, j);
    InvOf(run[j], steps[j]);
    hide Inv, Act, SelfOk;
  }

  // ---------------------------------------------------------------- reports about others

  /** A zone above that is not directly above. */
  predicate TooHigh(scope: Scope, zone: string) {
    zone != scope.zone && zone in scope.tops && zone !in scope.directTops
  }

  /** The report reaches the agent, alone or in a table that is merged. */
  predicate Reaches(a: Agent, step: Step, r: Report) {
    step == Receive(a.uuid, r) || (step == Merge(a.uuid, r) && !TooHigh(a.scope, r.zone))
  }

  /** Whether an agent believes a report about another node. */
  predicate Believed(a: Agent, r: Report) {
    match r.kind
    case Alive =>
      if r.uuid in a.nodes then a.nodes[r.uuid].incarnation < r.incarnation
      else r.zone == a.scope.zone || r.zone !in a.scope.tops || r.isProxy
    case Leave =>
      r.uuid in a.nodes && a.nodes[r.uuid].state != Leave && a.nodes[r.uuid].incarnation <= r.incarnation
    case _ =>
      r.uuid in a.nodes && a.nodes[r.uuid].state == Alive && a.nodes[r.uuid].incarnation <= r.incarnation
  }

  /** The record after a report that is believed. */
  function RecordAfter(a: Agent, r: Report, now: int): Record
    requires Believed(a, r)
  {
    match r.kind
    case Alive => Record(r.incarnation, Alive, r.zone, r.isProxy, None, None)
    case Leave =>
      var rec := a.nodes[r.uuid];
      Record(r.incarnation, Leave, rec.zone, rec.isProxy, rec.suspectTime, Some(now))
    case _ =>
      var rec := a.nodes[r.uuid];
      Record(r.incarnation, Suspect, rec.zone, rec.isProxy, Some(now), rec.leaveTime)
  }

  lemma HearIs(a: Agent, r: Report, now: int)
    requires a.uuid in a.nodes && r.uuid != a.uuid
    ensures var a' := Hear(a, r, now);
            if Believed(a, r) then
              var rec := RecordAfter(a, r, now);
              a' == a.(nodes := a.nodes[r.uuid := rec],
                       sent := a.sent + [Report(rec.state, r.uuid, rec.incarnation, rec.zone, rec.isProxy)])
            else a' == a
  {
  }

  /** A report about another node, alone or in a merged table, is believed or changes nothing. If it is believed, the
      record says what the report says, and the same is told to everybody. */
  lemma ReportTakesEffect(run: seq<World>, steps: seq<Step>, j: nat, holder: Uuid, r: Report)
    requires IsRun(run, steps) && j < |steps| && holder in run[j].agents && holder != r.uuid
    requires run[j].agents[holder].uuid == holder && Reaches(run[j].agents[holder], steps[j], r)
    ensures holder in run[j + 1].agents
    ensures var a, a' := run[j].agents[holder], run[j + 1].agents[holder];
            if Believed(a, r) then
              var rec := RecordAfter(a, r, run[j].clock);
              && a'.nodes == a.nodes[r.uuid := rec]
              && Report(rec.state, r.uuid, rec.incarnation, rec.zone, rec.isProxy) in run[j + 1].net
            else a' == a
  {
    Acts(run, steps, j);
    var a := run[j].agents[holder];
    HearIs(a, r, run[j].clock);
    hide Believed, RecordAfter, IsRun;
    if Believed(a, r) {
      var rec := RecordAfter(a, r, run[j].clock);
      var told := Report(rec.state, r.uuid, rec.incarnation, rec.zone, rec.isProxy);
      assert run[j + 1].agents[holder].sent == a.sent + [told];
      assert told in run[j + 1].agents[holder].sent;
    }
  }

  /** What a table says about the agent itself, or about a zone too high, is passed over. */
  lemma EntryIsPassedOver(run: seq<World>, steps: seq<Step>, j: nat, holder: Uuid, r: Report)
    requires IsRun(run, steps) && j < |steps| && holder in run[j].agents && steps[j] == Merge(holder, r)
    requires r.uuid == holder || TooHigh(run[j].agents[holder].scope, r.zone)
    ensures run[j + 1].agents == run[j].agents
  {
    Acts(run, steps, j);
    hide Hear;
    assert Act(run[j].agents[holder], steps[j], run[j].clock) == run[j].agents[holder];
  }

  // ---------------------------------------------------------------- whole tables

  /** An entry that is not passed over. */
  predicate Regarded(a: Agent, r: Report) {
    r.uuid != a.uuid && !TooHigh(a.scope, r.zone)
  }

  lemma MergeTouches(a: Agent, r: Report, now: int)
    requires a.uuid in a.nodes
    ensures var a' := MergeNode(a, r, now);
            && a'.uuid == a.uuid && a'.scope == a.scope && a'.uuid in a'.nodes
            && (forall u :: u != r.uuid || !Regarded(a, r) ==>
                 (u in a'.nodes <==> u in a.nodes) && (u in a.nodes ==> a'.nodes[u] == a.nodes[u]))
            && (Regarded(a, r) ==> a' == Hear(a, r, now))
  {
    if Regarded(a, r) {
      HearIs(a, r, now);
    }
  }

  lemma MergeFirst(a: Agent, rs: seq<Report>, now: int)
    requires a.uuid in a.nodes && rs != [] && MergeNode(a, rs[0], now).uuid in MergeNode(a, rs[0], now).nodes
    ensures MergeNodes(a, rs, now) == MergeNodes(MergeNode(a, rs[0], now), rs[1..], now)
  {
  }

  /** The record of a node of which the table has no entry, or none that is regarded, stays. */
  lemma {:induction false} UntouchedByTable(a: Agent, rs: seq<Report>, now: int, u: Uuid)
    requires a.uuid in a.nodes && forall i :: 0 <= i < |rs| ==> rs[i].uuid != u || !Regarded(a, rs[i])
    ensures var nodes := MergeNodes(a, rs, now).nodes;
            (u in nodes <==> u in a.nodes) && (u in a.nodes ==> nodes[u] == a.nodes[u])
    decreases |rs|
  {
    if rs != [] {
      MergeTouches(a, rs[0], now);
      assert rs[0].uuid != u || !Regarded(a, rs[0]);
      MergeFirst(a, rs, now);
      hide MergeNode, MergeNodes;
      UntouchedByTable(MergeNode(a, rs[0], now), rs[1..], now, u);
    }
  }

  lemma SameBelief(a: Agent, b: Agent, r: Report, now: int)
    requires a.scope == b.scope && (r.uuid in a.nodes <==> r.uuid in b.nodes)
    requires r.uuid in a.nodes ==> a.nodes[r.uuid] == b.nodes[r.uuid]
    ensures Believed(a, r) <==> Believed(b, r)
    ensures Believed(a, r) ==> RecordAfter(a, r, now) == RecordAfter(b, r, now)
  {
  }

  /** A table has one entry for a node. However many entries it has, and wherever they stand, each one that is
      regarded does to the record of its node what it does alone. */
  lemma {:induction false} EveryEntryIsHeard(a: Agent, rs: seq<Report>, now: int, k: nat)
    requires a.uuid in a.nodes && k < |rs| && Regarded(a, rs[k])
    requires forall i, j :: 0 <= i < j < |rs| ==> rs[i].uuid != rs[j].uuid
    ensures var r, nodes := rs[k], MergeNodes(a, rs, now).nodes;
            if Believed(a, r) then r.uuid in nodes && nodes[r.uuid] == RecordAfter(a, r, now)
            else (r.uuid in nodes <==> r.uuid in a.nodes) && (r.uuid in a.nodes ==> nodes[r.uuid] == a.nodes[r.uuid])
    decreases |rs|
  {
    var r := rs[k];
    MergeTouches(a, rs[0], now);
    MergeFirst(a, rs, now);
    var a' := MergeNode(a, rs[0], now);
    hide MergeNode, MergeNodes, Hear, Believed, RecordAfter;
    if k == 0 {
      HearIs(a, r, now);
      UntouchedByTable(a', rs[1..], now, r.uuid);
    } else {
      assert rs[0].uuid != rs[k].uuid;
      SameBelief(a, a', r, now);
      EveryEntryIsHeard(a', rs[1..], now, k - 1);
    }
  }

  // ---------------------------------------------------------------- pings, departures, renewals

  /** A ping that is answered makes the record alive, at the incarnation it has, and nobody is told. */
  lemma AnswerRevives(run: seq<World>, steps: seq<Step>, j: nat, id: Uuid, u: Uuid)
    requires IsRun(run, steps) && j < |steps| && steps[j] == Answered(id, u) && id in run[j].agents
    ensures id in run[j + 1].agents && run[j + 1].agents[id].sent == run[j].agents[id].sent
    ensures var nodes := run[j].agents[id].nodes;
            run[j + 1].agents[id].nodes
            == if u in nodes then nodes[u := nodes[u].(state := Alive)] else nodes
  {
    Acts(run, steps, j);
    var a := run[j].agents[id];
    assert u in a.nodes && u == id ==> a.nodes[u].incarnation == a.incarnation;
  }

  /** A ping that is not answered makes a living record suspected from now on, and everybody is told. */
  lemma SilenceIsSuspected(run: seq<World>, steps: seq<Step>, j: nat, id: Uuid, u: Uuid)
    requires IsRun(run, steps) && j < |steps| && steps[j] == Unanswered(id, u) && id in run[j].agents && u != id
    ensures id in run[j + 1].agents
    ensures var a, a' := run[j].agents[id], run[j + 1].agents[id];
            if u in a.nodes && a.nodes[u].state == Alive then
              var rec := a.nodes[u];
              && a'.nodes == a.nodes[u := rec.(state := Suspect, suspectTime := Some(run[j].clock))]
              && Report(Suspect, u, rec.incarnation, rec.zone, rec.isProxy) in run[j + 1].net
            else a' == a
  {
    Acts(run, steps, j);
    var a, a' := run[j].agents[id], run[j + 1].agents[id];
    if u in a.nodes && a.nodes[u].state == Alive {
      var rec := a.nodes[u];
      assert a'.sent[|a.sent|] == Report(Suspect, u, rec.incarnation, rec.zone, rec.isProxy);
      assert a'.sent[|a.sent|] in run[j + 1].net;
    }
  }

  /** An agent that is told to leave does leave: its own record is of the next incarnation and gone, everybody is told,
      and nothing that was ever said about it is as young. */
  lemma ForcedLeaveWins(run: seq<World>, steps: seq<Step>, j: nat, id: Uuid)
    requires IsRun(run, steps) && j < |steps| && steps[j] == ForceLeave(id, id) && id in run[j].agents
    requires id in run[j].agents[id].nodes && run[j].agents[id].nodes[id].state != Leave
    ensures id in run[j + 1].agents
    ensures var a, a' := run[j].agents[id], run[j + 1].agents[id];
            var rec := a.nodes[id];
            && a'.incarnation == a.incarnation + 1
            && a'.nodes == a.nodes[id := rec.(incarnation := a.incarnation + 1, state := Leave)]
            && Report(Leave, id, a.incarnation + 1, rec.zone, rec.isProxy) in run[j + 1].net
            && forall r :: r in run[j].net && r.uuid == id ==> r.incarnation < a'.incarnation
  {
    Acts(run, steps, j);
    RunLength(run, steps);
    IncarnationsAreOwned(run, steps, j, id, id);
    var a, a' := run[j].agents[id], run[j + 1].agents[id];
    assert a'.sent[|a.sent|] == Report(Leave, id, a.incarnation + 1, a.nodes[id].zone, a.nodes[id].isProxy);
    assert a'.sent[|a.sent|] in run[j + 1].net;
    assert a'.nodes == a.nodes[id := a.nodes[id].(incarnation := a.incarnation + 1, state := Leave)];
  }

  /** Another node that is made to leave is gone for the agent from now on, and everybody is told. */
  lemma OthersCanBeMadeToLeave(run: seq<World>, steps: seq<Step>, j: nat, id: Uuid, u: Uuid)
    requires IsRun(run, steps) && j < |steps| && steps[j] == ForceLeave(id, u) && id in run[j].agents && u != id
    ensures id in run[j + 1].agents
    ensures var a, a' := run[j].agents[id], run[j + 1].agents[id];
            if u in a.nodes && a.nodes[u].state != Leave then
              var rec := a.nodes[u];
              && a'.nodes == a.nodes[u := rec.(state := Leave, leaveTime := Some(run[j].clock))]
              && Report(Leave, u, rec.incarnation, rec.zone, rec.isProxy) in run[j + 1].net
            else a' == a
  {
    Acts(run, steps, j);
    var a, a' := run[j].agents[id], run[j + 1].agents[id];
    if u in a.nodes && a.nodes[u].state != Leave {
      var rec := a.nodes[u];
      assert a'.sent[|a.sent|] == Report(Leave, u, rec.incarnation, rec.zone, rec.isProxy);
      assert a'.sent[|a.sent|] in run[j + 1].net;
    }
  }

  /** An agent that renews itself is of the next incarnation, in the state it was, and everybody is told. */
  lemma RenewalIsTold(run: seq<World>, steps: seq<Step>, j: nat, id: Uuid)
    requires IsRun(run, steps) && j < |steps| && steps[j] == Renew(id) && id in run[j].agents
    ensures id in run[j].agents[id].nodes && id in run[j + 1].agents
    ensures var a, a' := run[j].agents[id], run[j + 1].agents[id];
            var rec := a.nodes[id];
            && a'.incarnation == a.incarnation + 1
            && a'.nodes == a.nodes[id := rec.(incarnation := a.incarnation + 1)]
            && Report(rec.state, id, a.incarnation + 1, rec.zone, rec.isProxy) in run[j + 1].net
  {
    Acts(run, steps, j);
    var a, a' := run[j].agents[id], run[j + 1].agents[id];
    var rec := a.nodes[id];
    assert a'.sent[|a.sent|] == Report(rec.state, id, a.incarnation + 1, rec.zone, rec.isProxy);
    assert a'.sent[|a.sent|] in run[j + 1].net;
  }

  /** An agent that answers a push-pull of its own zone, or of one above, puts its whole table on the network and stays
      as it is; what it sends to others is part of that. */
  lemma TableIsShared(run: seq<World>, steps: seq<Step>, j: nat, id: Uuid, u: Uuid)
    requires IsRun(run, steps) && j < |steps| && steps[j] == PushPull(id) && id in run[j].agents
    requires u in run[j].agents[id].nodes
    ensures run[j + 1].agents == run[j].agents
    ensures var rec := run[j].agents[id].nodes[u];
            Report(rec.state, u, rec.incarnation, rec.zone, rec.isProxy) in run[j + 1].net
  {
    StepOf(run, steps, j);
    var a := run[j].agents[id];
    assert ReportOf(a.nodes[u].state, u, a.nodes[u]) in Table(a);
    assert run[j].agents[id := a] == run[j].agents;
    hide Inv;
  }

  // ---------------------------------------------------------------- ageing

  lemma {:induction false} ExpiredAreDead(a: Agent, order: seq<Uuid>, timeout: nat, now: int, u: Uuid)
    requires u in a.nodes && u in order && TurnsDead(a.nodes[u], timeout, now)
    ensures var a', rec := ExpireAll(a, order, timeout, now), a.nodes[u];
            && u in a'.nodes && a'.nodes[u] == rec.(state := Dead)
            && ReportOf(Dead, u, rec) in a'.sent
    decreases |order|
  {
    var v := order[0];
    var a1 := ExpireOne(a, v, timeout, now);
    if v == u {
      assert a1.sent[|a.sent|] == ReportOf(Dead, u, a.nodes[u]);
      ExpireAllOn(a1, order[1..], timeout, now, u);
      SentStays(a1, order[1..], timeout, now);
    } else {
      assert u in order[1..];
      ExpiredAreDead(a1, order[1..], timeout, now, u);
    }
  }

  lemma {:induction false} SentStays(a: Agent, order: seq<Uuid>, timeout: nat, now: int)
    ensures forall r :: r in a.sent ==> r in ExpireAll(a, order, timeout, now).sent
    decreases |order|
  {
    if order != [] {
      SentStays(ExpireOne(a, order[0], timeout, now), order[1..], timeout, now);
    }
  }

  lemma {:induction false} OthersDoNotExpire(a: Agent, order: seq<Uuid>, timeout: nat, now: int, u: Uuid)
    requires u in a.nodes && !TurnsDead(a.nodes[u], timeout, now)
    ensures u in ExpireAll(a, order, timeout, now).nodes && ExpireAll(a, order, timeout, now).nodes[u] == a.nodes[u]
    decreases |order|
  {
    if order != [] {
      OthersDoNotExpire(ExpireOne(a, order[0], timeout, now), order[1..], timeout, now, u);
    }
  }

  /** When the table ages, with `timeout` five times the scale of its size: whoever has been suspected for longer is
      dead and everybody is told, whoever left more than thirty times as long ago is forgotten, and everything else
      stays. */
  lemma AgeingTakesEffect(run: seq<World>, steps: seq<Step>, j: nat, id: Uuid, order: seq<Uuid>, u: Uuid)
    requires IsRun(run, steps) && j < |steps| && steps[j] == Age(id, order) && id in run[j].agents
    requires u in run[j].agents[id].nodes && u in order
    ensures id in run[j + 1].agents
    ensures var a, nodes' := run[j].agents[id], run[j + 1].agents[id].nodes;
            var rec, timeout, now := a.nodes[u], 5 * CeilLog10(|a.nodes| + 1), run[j].clock;
            if rec.state == Suspect && rec.suspectTime.Some? && rec.suspectTime.value + timeout < now then
              && u in nodes' && nodes'[u] == rec.(state := Dead)
              && Report(Dead, u, rec.incarnation, rec.zone, rec.isProxy) in run[j + 1].net
            else if rec.state == Leave && rec.leaveTime.Some? && rec.leaveTime.value + 30 * timeout < now then
              u !in nodes'
            else u in nodes' && nodes'[u] == rec
  {
    Acts(run, steps, j);
    var a := run[j].agents[id];
    var timeout := SuspectTimeout(|a.nodes|);
    hide ExpireAll;
    if TurnsDead(a.nodes[u], timeout, run[j].clock) {
      ExpiredAreDead(a, order, timeout, run[j].clock, u);
    } else {
      OthersDoNotExpire(a, order, timeout, run[j].clock, u);
    }
  }

  // ---------------------------------------------------------------- after a restart

  /** What an agent does about reports on itself, whatever their incarnation; reports younger than itself come only
      after a restart. It answers every younger "alive" with a younger one still. It answers other reports only while
      it lives, and a departure only of its own incarnation; the answer beats the report exactly when the report is
      not younger than the agent itself. */
  lemma OwnReportsAreAnswered(a: Agent, r: Report, now: int)
    requires SelfOk(a) && r.uuid == a.uuid
    ensures var a', rec := Hear(a, r, now), a.nodes[a.uuid];
            var answers := match r.kind
                           case Alive => r.incarnation > a.incarnation
                           case Leave => rec.state == Alive && r.incarnation == a.incarnation
                           case _ => rec.state == Alive && r.incarnation >= a.incarnation;
            if answers then
              && a'.sent == a.sent + [Report(rec.state, a.uuid, a'.incarnation, rec.zone, rec.isProxy)]
              && a'.nodes == a.nodes[a.uuid := rec.(incarnation := a'.incarnation)]
              && a'.incarnation == (if r.kind == Alive then r.incarnation else a.incarnation) + 1
              && (a'.incarnation > r.incarnation <==> r.kind == Alive || r.incarnation == a.incarnation)
            else a' == a
  {
  }

  /** Two branches that no run takes, because of what OwnRecordSurvives says. An agent that renews itself while its own
      record is suspected or dead raises; one that answers its own ping while its record is younger than itself outbids
      the record. */
  lemma BranchesNeverTaken(a: Agent)
    requires a.uuid in a.nodes
    ensures var a', rec := Refresh(a), a.nodes[a.uuid];
            && (a'.raised <==> a.raised || rec.state in {Suspect, Dead})
            && (rec.state in {Suspect, Dead} ==> a'.sent == a.sent && a'.incarnation == a.incarnation + 1)
    ensures var a', rec := SetAliveStrong(a, a.uuid), a.nodes[a.uuid];
            rec.incarnation > a.incarnation ==>
              && a'.incarnation == rec.incarnation + 1
              && a'.nodes == a.nodes[a.uuid := rec.(incarnation := rec.incarnation + 1, state := Alive)]
              && a'.sent == a.sent + [Report(Alive, a.uuid, rec.incarnation + 1, rec.zone, rec.isProxy)]
  {
    var st := a.nodes[a.uuid].state;
    assert st == Alive || st == Suspect || st == Dead || st == Leave;
  }
}
