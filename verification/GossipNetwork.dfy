/** Agents that gossip over a network that may lose, repeat, delay and reorder reports. */
module GossipNetwork {
  import opened GossipNodes

  /** `net` holds every report ever put on the network; delivering one does not take it away. */
  datatype World = World(agents: map<Uuid, Agent>, net: set<Report>, clock: int)

  datatype Step =
    | Receive(id: Uuid, report: Report)
    | Merge(id: Uuid, entry: Report)
    | Answered(id: Uuid, target: Uuid)
    | Unanswered(id: Uuid, target: Uuid)
    | ForceLeave(id: Uuid, target: Uuid)
    | Age(id: Uuid, order: seq<Uuid>)
    | Renew(id: Uuid)
    | PushPull(id: Uuid)
    | Tick(delay: nat)

  /** What the agent does in a step of its own. */
  function Act(a: Agent, step: Step, now: int): Agent
    requires a.uuid in a.nodes
  {
    match step
    case Receive(_, r) => Hear(a, r, now)
    case Merge(_, r) => MergeNode(a, r, now)
    case Answered(_, u) => SetAliveStrong(a, u)
    case Unanswered(_, u) => if u in a.nodes then SetSuspect(a, ReportOf(Suspect, u, a.nodes[u]), now) else a
    case ForceLeave(_, u) => if u in a.nodes then SetLeave(a, ReportOf(Leave, u, a.nodes[u]), true, now) else a
    case Age(_, order) => LookAtDeads(a, order, now)
    case Renew(_) => Refresh(a)
    case PushPull(_) => a
    case Tick(_) => a
  }

  function Table(a: Agent): set<Report> {
    set u | u in a.nodes :: ReportOf(a.nodes[u].state, u, a.nodes[u])
  }

  function Said(a: Agent): set<Report> {
    set r | r in a.sent
  }

  /** The reports a step reads are taken from the network. */
  predicate Supplied(w: World, step: Step) {
    match step
    case Receive(_, r) => r in w.net
    case Merge(_, r) => r in w.net
    case _ => true
  }

  ghost predicate Next(w: World, step: Step, w': World) {
    match step
    case Tick(delay) => w' == w.(clock := w.clock + delay)
    case _ =>
      && step.id in w.agents && w.agents[step.id].uuid in w.agents[step.id].nodes
      && Supplied(w, step)
      && var a := Act(w.agents[step.id], step, w.clock);
         w' == World(w.agents[step.id := a],
                     w.net + Said(a) + (if step.PushPull? then Table(w.agents[step.id]) else {}), w.clock)
  }

  /** Every agent starts alone: its table holds its own record and nothing else. */
  ghost predicate Init(w: World) {
    && w.net == {}
    && forall id :: id in w.agents ==>
         var a := w.agents[id];
         && a.uuid == id && a.sent == [] && !a.raised
         && a.nodes.Keys == {id}
         && a.nodes[id].state == Alive && a.nodes[id].incarnation == a.incarnation && a.nodes[id].leaveTime.None?
  }

  ghost predicate IsRun(run: seq<World>, steps: seq<Step>) {
    && |run| == |steps| + 1
    && Init(run[0])
    && forall i :: 0 <= i < |steps| ==> Next(run[i], steps[i], run[i + 1])
  }

  // ---------------------------------------------------------------- incarnations belong to their node

  /** The agent's own record is there, alive or leaving, and as young as the agent. */
  ghost predicate SelfOk(a: Agent) {
    && a.uuid in a.nodes && !a.raised
    && a.nodes[a.uuid].incarnation == a.incarnation
    && a.nodes[a.uuid].state in {Alive, Leave} && a.nodes[a.uuid].leaveTime.None?
  }

  ghost predicate Below(bound: map<Uuid, nat>, u: Uuid, incarnation: nat) {
    u in bound && incarnation <= bound[u]
  }

  /** Nothing the agent stores or ever said about a node exceeds that node's own incarnation. */
  ghost predicate Within(a: Agent, bound: map<Uuid, nat>) {
    && a.uuid in bound && bound[a.uuid] == a.incarnation
    && (forall u :: u in a.nodes ==> Below(bound, u, a.nodes[u].incarnation))
    && (forall r :: r in a.sent ==> Below(bound, r.uuid, r.incarnation))
  }

  function Bound(w: World): map<Uuid, nat> {
    map id | id in w.agents :: w.agents[id].incarnation
  }

  ghost predicate Inv(w: World) {
    && (forall id :: id in w.agents ==>
          w.agents[id].uuid == id && SelfOk(w.agents[id]) && Within(w.agents[id], Bound(w)))
    && (forall id, r :: id in w.agents && r in w.agents[id].sent ==> r in w.net)
    && (forall r :: r in w.net ==> Below(Bound(w), r.uuid, r.incarnation))
  }

  /** What a step may do to an agent that satisfied the invariant. */
  ghost predicate Kept(a: Agent, bound: map<Uuid, nat>, a': Agent) {
    && a'.uuid == a.uuid && a'.incarnation >= a.incarnation
    && SelfOk(a') && Within(a', bound[a.uuid := a'.incarnation])
  }

  lemma RefreshKeeps(a: Agent, bound: map<Uuid, nat>)
    requires SelfOk(a) && Within(a, bound)
    ensures Kept(a, bound, Refresh(a))
  {
  }

  lemma SetAliveKeeps(a: Agent, bound: map<Uuid, nat>, r: Report)
    requires SelfOk(a) && Within(a, bound) && Below(bound, r.uuid, r.incarnation)
    ensures Kept(a, bound, SetAlive(a, r))
  {
  }

  lemma SetSuspectKeeps(a: Agent, bound: map<Uuid, nat>, r: Report, now: int)
    requires SelfOk(a) && Within(a, bound) && Below(bound, r.uuid, r.incarnation)
    ensures Kept(a, bound, SetSuspect(a, r, now))
  {
    RefreshKeeps(a, bound);
  }

  lemma SetLeaveKeeps(a: Agent, bound: map<Uuid, nat>, r: Report, force: bool, now: int)
    requires SelfOk(a) && Within(a, bound) && Below(bound, r.uuid, r.incarnation)
    ensures Kept(a, bound, SetLeave(a, r, force, now))
  {
    RefreshKeeps(a, bound);
    RefreshKeeps(a.(nodes := a.nodes[a.uuid := a.nodes[a.uuid].(state := Leave)]), bound);
  }

  lemma StrongKeeps(a: Agent, bound: map<Uuid, nat>, u: Uuid)
    requires SelfOk(a) && Within(a, bound)
    ensures Kept(a, bound, SetAliveStrong(a, u))
  {
  }

  lemma {:induction false} ExpireAllKeeps(a: Agent, bound: map<Uuid, nat>, order: seq<Uuid>, timeout: nat, now: int)
    requires SelfOk(a) && Within(a, bound)
    ensures var a' := ExpireAll(a, order, timeout, now);
            Kept(a, bound, a') && a'.incarnation == a.incarnation && a'.nodes.Keys == a.nodes.Keys
    decreases |order|
  {
    if order != [] {
      var a1 := ExpireOne(a, order[0], timeout, now);
      assert bound[a.uuid := a.incarnation] == bound;
      assert a1.nodes.Keys == a.nodes.Keys;
      assert Kept(a, bound, a1);
      ExpireAllKeeps(a1, bound, order[1..], timeout, now);
    }
  }

  lemma ActKeeps(a: Agent, bound: map<Uuid, nat>, step: Step, now: int)
    requires SelfOk(a) && Within(a, bound)
    requires step.Receive? ==> Below(bound, step.report.uuid, step.report.incarnation)
    requires step.Merge? ==> Below(bound, step.entry.uuid, step.entry.incarnation)
    ensures Kept(a, bound, Act(a, step, now))
  {
    hide SetAlive, SetSuspect, SetLeave, SetAliveStrong, Refresh, ExpireAll;
    assert bound[a.uuid := a.incarnation] == bound;
    match step {
      case Receive(_, r) =>
        SetAliveKeeps(a, bound, r);
        SetSuspectKeeps(a, bound, r, now);
        SetLeaveKeeps(a, bound, r, false, now);
      case Merge(_, r) =>
        SetAliveKeeps(a, bound, r);
        SetSuspectKeeps(a, bound, r, now);
        SetLeaveKeeps(a, bound, r, false, now);
      case Answered(_, u) => StrongKeeps(a, bound, u);
      case Unanswered(_, u) =>
        if u in a.nodes { SetSuspectKeeps(a, bound, ReportOf(Suspect, u, a.nodes[u]), now); }
      case ForceLeave(_, u) =>
        if u in a.nodes { SetLeaveKeeps(a, bound, ReportOf(Leave, u, a.nodes[u]), true, now); }
      case Age(_, order) => ExpireAllKeeps(a, bound, order, SuspectTimeout(|a.nodes|), now);
      case Renew(_) => RefreshKeeps(a, bound);
      case _ =>
    }
  }

  lemma WithinGrows(a: Agent, bound: map<Uuid, nat>, u: Uuid, incarnation: nat)
    requires Within(a, bound) && u in bound && u != a.uuid && incarnation >= bound[u]
    ensures Within(a, bound[u := incarnation])
  {
  }

  /** The invariant of the world after one agent moved on and told something about its table. */
  lemma WorldKeeps(w: World, id: Uuid, a': Agent, told: set<Report>)
    requires Inv(w) && id in w.agents && Kept(w.agents[id], Bound(w), a')
    requires forall r :: r in told ==> Below(Bound(w), r.uuid, r.incarnation)
    ensures Inv(World(w.agents[id := a'], w.net + Said(a') + told, w.clock))
  {
    hide SelfOk;
    var w' := World(w.agents[id := a'], w.net + Said(a') + told, w.clock);
    assert Bound(w') == Bound(w)[id := a'.incarnation];
    forall i | i in w'.agents
      ensures w'.agents[i].uuid == i && SelfOk(w'.agents[i]) && Within(w'.agents[i], Bound(w'))
    {
      if i != id { WithinGrows(w.agents[i], Bound(w), id, a'.incarnation); }
    }
    forall r | r in w'.net ensures Below(Bound(w'), r.uuid, r.incarnation) {
      if r in w.net { assert Below(Bound(w), r.uuid, r.incarnation); }
    }
  }

  /** What the invariant says of one step: its agent is sound, and whatever it reads or tells is. */
  lemma InvOf(w: World, step: Step)
    requires Inv(w) && !step.Tick? && step.id in w.agents && Supplied(w, step)
    ensures var a := w.agents[step.id];
            && a.uuid == step.id && SelfOk(a) && Within(a, Bound(w))
            && (forall r :: r in Table(a) ==> Below(Bound(w), r.uuid, r.incarnation))
            && (step.Receive? ==> Below(Bound(w), step.report.uuid, step.report.incarnation))
            && (step.Merge? ==> Below(Bound(w), step.entry.uuid, step.entry.incarnation))
  {
  }

  lemma TickKeeps(w: World, delay: nat)
    requires Inv(w)
    ensures Inv(w.(clock := w.clock + delay))
  {
    hide SelfOk, Within, Below;
    assert Bound(w.(clock := w.clock + delay)) == Bound(w);
  }

  lemma NextKeeps(w: World, step: Step, w': World)
    requires Inv(w) && Next(w, step, w')
    ensures Inv(w') && w'.agents.Keys == w.agents.Keys
    ensures forall id :: id in w.agents ==> w.agents[id].incarnation <= w'.agents[id].incarnation
    ensures w.net <= w'.net && w.clock <= w'.clock
  {
    hide Act, Inv, SelfOk, Within, Table, Below;
    if step.Tick? {
      TickKeeps(w, step.delay);
    } else {
      InvOf(w, step);
      var a := w.agents[step.id];
      ActKeeps(a, Bound(w), step, w.clock);
      var told := if step.PushPull? then Table(a) else {};
      WorldKeeps(w, step.id, Act(a, step, w.clock), told);
      assert w'.agents.Keys == w.agents.Keys;
    }
  }

  lemma InitKeeps(w: World)
    requires Init(w)
    ensures Inv(w)
  {
    forall id | id in w.agents ensures Within(w.agents[id], Bound(w)) {
      forall u | u in w.agents[id].nodes ensures u == id {
        assert u in w.agents[id].nodes.Keys;
      }
    }
  }

  lemma {:induction false} InvAlong(run: seq<World>, steps: seq<Step>, i: nat)
    requires IsRun(run, steps) && i < |run|
    ensures Inv(run[i])
  {
    if i == 0 {
      InitKeeps(run[0]);
    } else {
      InvAlong(run, steps, i - 1);
      assert Next(run[i - 1], steps[i - 1], run[i - 1 + 1]);
      NextKeeps(run[i - 1], steps[i - 1], run[i]);
    }
  }
}
