/** A run in which the order of two suspicions shows. */
module GossipClash {
  import opened Common
  import opened GossipNodes
  import opened GossipNetwork
  import opened GossipOrder

  const ZONE := "zone"

  function Solo(id: Uuid): Agent {
    Agent(id, Scope(ZONE, {}, {}), 0, map[id := Record(0, Alive, ZONE, false, None, None)], [], false)
  }

  function Start(ids: set<Uuid>): World {
    World(map id | id in ids :: Solo(id), {}, 0)
  }

  function Rumour(kind: State, u: Uuid, incarnation: nat): Report {
    Report(kind, u, incarnation, ZONE, false)
  }

  predicate MayAct(w: World, step: Step) {
    !step.Tick? && step.id in w.agents && w.agents[step.id].uuid in w.agents[step.id].nodes && Supplied(w, step)
  }

  function After(w: World, step: Step): World
    requires MayAct(w, step)
  {
    var a := Act(w.agents[step.id], step, w.clock);
    World(w.agents[step.id := a],
          w.net + Said(a) + (if step.PushPull? then Table(w.agents[step.id]) else {}), w.clock)
  }

  /** A step adds to the network and leaves every other agent alone. */
  lemma Others(w: World, step: Step)
    requires MayAct(w, step)
    ensures w.net <= After(w, step).net && After(w, step).agents.Keys == w.agents.Keys
    ensures forall id :: id in w.agents && id != step.id ==> After(w, step).agents[id] == w.agents[id]
  {
  }

  lemma Extend(run: seq<World>, steps: seq<Step>, step: Step)
    requires IsRun(run, steps) && MayAct(run[|steps|], step)
    ensures IsRun(run + [After(run[|steps|], step)], steps + [step])
  {
    hide Init, Act;
    var run', steps' := run + [After(run[|steps|], step)], steps + [step];
    assert Next(run[|steps|], step, run'[|steps| + 1]);
    forall i | 0 <= i < |steps'| ensures Next(run'[i], steps'[i], run'[i + 1]) {
      assert i < |steps| ==> Next(run[i], steps[i], run[i + 1]);
    }
  }

  /** The node lives at this incarnation, as it knows itself. */
  ghost predicate Lives(w: World, u: Uuid, incarnation: nat) {
    && u in w.agents && w.agents[u].uuid == u && w.agents[u].incarnation == incarnation
    && u in w.agents[u].nodes && w.agents[u].nodes[u] == Record(incarnation, Alive, ZONE, false, None, None)
  }

  /** What another agent of the zone holds about the node. */
  ghost predicate Holds(w: World, id: Uuid, u: Uuid, rec: Option<Record>) {
    && id in w.agents && id != u && w.agents[id].uuid == id && w.agents[id].scope == Scope(ZONE, {}, {})
    && id in w.agents[id].nodes
    && (if u in w.agents[id].nodes then rec == Some(w.agents[id].nodes[u]) else rec == None)
  }

  lemma Tells(w: World, u: Uuid)
    requires Lives(w, u, 0)
    ensures MayAct(w, PushPull(u)) && Rumour(Alive, u, 0) in After(w, PushPull(u)).net
    ensures Lives(After(w, PushPull(u)), u, 0)
  {
    var a := w.agents[u];
    assert ReportOf(a.nodes[u].state, u, a.nodes[u]) in Table(a);
  }

  lemma Renews(w: World, u: Uuid, n: nat)
    requires Lives(w, u, n)
    ensures MayAct(w, Renew(u)) && Rumour(Alive, u, n + 1) in After(w, Renew(u)).net
    ensures Lives(After(w, Renew(u)), u, n + 1)
  {
    var sent := Refresh(w.agents[u]).sent;
    assert sent[|sent| - 1] == Rumour(Alive, u, n + 1);
  }

  lemma Learns(w: World, id: Uuid, u: Uuid, n: nat, rec: Option<Record>)
    requires Holds(w, id, u, rec) && (rec.Some? ==> rec.value.incarnation < n) && Rumour(Alive, u, n) in w.net
    ensures var step := Receive(id, Rumour(Alive, u, n));
            MayAct(w, step) && Holds(After(w, step), id, u, Some(Record(n, Alive, ZONE, false, None, None)))
  {
  }

  lemma Suspects(w: World, id: Uuid, u: Uuid, n: nat)
    requires Holds(w, id, u, Some(Record(n, Alive, ZONE, false, None, None)))
    ensures MayAct(w, Unanswered(id, u)) && Rumour(Suspect, u, n) in After(w, Unanswered(id, u)).net
    ensures exists since ::
        Holds(After(w, Unanswered(id, u)), id, u, Some(Record(n, Suspect, ZONE, false, since, None)))
  {
    var step := Unanswered(id, u);
    var sent := Act(w.agents[id], step, w.clock).sent;
    assert sent[|sent| - 1] == Rumour(Suspect, u, n);
    assert Holds(After(w, step), id, u, Some(Record(n, Suspect, ZONE, false, Some(w.clock), None)));
  }

  /** Two suspicions of different incarnations clash on a living record that is no younger than either. */
  lemma SuspicionsClash(n: nat, x: Report, y: Report)
    requires x.kind == Suspect && y.kind == Suspect && n <= x.incarnation < y.incarnation
    ensures Clash(Status(n, Alive), x, y)
    ensures Believe(Believe(Status(n, Alive), x), y) == Status(x.incarnation, Suspect)
    ensures Believe(Believe(Status(n, Alive), y), x) == Status(y.incarnation, Suspect)
  {
  }

  /** One step more; what is known of the other agents, and what is on the network, stays. */
  lemma Perform(run: seq<World>, steps: seq<Step>, step: Step) returns (run': seq<World>, steps': seq<Step>)
    requires IsRun(run, steps) && |run| == |steps| + 1 && MayAct(run[|steps|], step)
    ensures IsRun(run', steps') && |run'| == |steps'| + 1 && steps' == steps + [step]
    ensures var w, w' := run[|steps|], run'[|steps'|];
            && w' == After(w, step) && w.net <= w'.net
            && (forall u, n :: u != step.id && Lives(w, u, n) ==> Lives(w', u, n))
            && (forall id, u, rec :: id != step.id && Holds(w, id, u, rec) ==> Holds(w', id, u, rec))
  {
    Extend(run, steps, step);
    Others(run[|steps|], step);
    run', steps' := run + [After(run[|steps|], step)], steps + [step];
    hide After, IsRun, MayAct;
  }

  /** The node renews itself, the watcher hears of it and then suspects it. */
  lemma Watched(run: seq<World>, steps: seq<Step>, u: Uuid, v: Uuid, n: nat, rec: Option<Record>)
    returns (run': seq<World>, steps': seq<Step>, rec': Option<Record>)
    requires IsRun(run, steps) && |run| == |steps| + 1 && u != v
    requires Lives(run[|steps|], u, n) && Holds(run[|steps|], v, u, rec) && (rec.Some? ==> rec.value.incarnation <= n)
    ensures IsRun(run', steps') && |run'| == |steps'| + 1
    ensures var w, w' := run[|steps|], run'[|steps'|];
            && w.net <= w'.net && Rumour(Suspect, u, n + 1) in w'.net
            && Lives(w', u, n + 1) && Holds(w', v, u, rec') && rec'.Some? && rec'.value.incarnation == n + 1
            && forall h, known :: h != u && h != v && Holds(w, h, u, known) ==> Holds(w', h, u, known)
  {
    hide *;
    Renews(run[|steps|], u, n);
    run', steps' := Perform(run, steps, Renew(u));
    Learns(run'[|steps'|], v, u, n + 1, rec);
    run', steps' := Perform(run', steps', Receive(v, Rumour(Alive, u, n + 1)));
    Suspects(run'[|steps'|], v, u, n + 1);
    run', steps' := Perform(run', steps', Unanswered(v, u));
    var since :| Holds(run'[|steps'|], v, u, Some(Record(n + 1, Suspect, ZONE, false, since, None)));
    rec' := Some(Record(n + 1, Suspect, ZONE, false, since, None));
  }

  lemma Alone(ids: set<Uuid>)
    ensures IsRun([Start(ids)], [])
    ensures forall u :: u in ids ==> Lives(Start(ids), u, 0)
    ensures forall id, u :: id in ids && u != id ==> Holds(Start(ids), id, u, None)
  {
  }

  /** The first agent knows the node at incarnation 0; the node moves on, and the watcher suspects it twice. */
  lemma SuspectedTwice(h: Uuid, u: Uuid, v: Uuid) returns (run: seq<World>, steps: seq<Step>)
    requires h != u && u != v && h != v
    ensures IsRun(run, steps) && |run| == |steps| + 1
    ensures var w := run[|steps|];
            && Holds(w, h, u, Some(Record(0, Alive, ZONE, false, None, None)))
            && Rumour(Suspect, u, 1) in w.net && Rumour(Suspect, u, 2) in w.net
  {
    hide *;
    Alone({h, u, v});
    run, steps := [Start({h, u, v})], [];
    Tells(run[|steps|], u);
    run, steps := Perform(run, steps, PushPull(u));
    Learns(run[|steps|], h, u, 0, None);
    run, steps := Perform(run, steps, Receive(h, Rumour(Alive, u, 0)));
    var rec: Option<Record> := None;
    run, steps, rec := Watched(run, steps, u, v, 0, rec);
    run, steps, rec := Watched(run, steps, u, v, 1, rec);
  }

  lemma HearsSuspicion(w: World, h: Uuid, u: Uuid, n: nat, rec: Record)
    requires Holds(w, h, u, Some(rec)) && Rumour(Suspect, u, n) in w.net
    ensures MayAct(w, Receive(h, Rumour(Suspect, u, n)))
    ensures Holds(After(w, Receive(h, Rumour(Suspect, u, n))), h, u, Some(Absorb(rec, Rumour(Suspect, u, n), w.clock)))
  {
    HearAbsorbs(w.agents[h], Rumour(Suspect, u, n), w.clock);
  }

  /** Two suspicions on their way, taken from the network in this order. */
  lemma HearBoth(run: seq<World>, steps: seq<Step>, h: Uuid, u: Uuid, x: nat, y: nat, rec: Record)
    returns (run': seq<World>, steps': seq<Step>)
    requires IsRun(run, steps) && |run| == |steps| + 1 && Holds(run[|steps|], h, u, Some(rec))
    requires Rumour(Suspect, u, x) in run[|steps|].net && Rumour(Suspect, u, y) in run[|steps|].net
    ensures IsRun(run', steps') && |run'| == |steps'| + 1
    ensures steps' == steps + [Receive(h, Rumour(Suspect, u, x)), Receive(h, Rumour(Suspect, u, y))]
    ensures exists rec' ::
              && Holds(run'[|steps'|], h, u, Some(rec'))
              && StatusOf(rec') == Believe(Believe(StatusOf(rec), Rumour(Suspect, u, x)), Rumour(Suspect, u, y))
  {
    hide *;
    HearsSuspicion(run[|steps|], h, u, x, rec);
    var now := run[|steps|].clock;
    AbsorbBelieves(rec, Rumour(Suspect, u, x), now);
    run', steps' := Perform(run, steps, Receive(h, Rumour(Suspect, u, x)));
    var rec1 := Absorb(rec, Rumour(Suspect, u, x), now);
    HearsSuspicion(run'[|steps'|], h, u, y, rec1);
    AbsorbBelieves(rec1, Rumour(Suspect, u, y), run'[|steps'|].clock);
    var rec2 := Absorb(rec1, Rumour(Suspect, u, y), run'[|steps'|].clock);
    run', steps' := Perform(run', steps', Receive(h, Rumour(Suspect, u, y)));
    assert Holds(run'[|steps'|], h, u, Some(rec2));
  }

  /** What the agent believes about the node. */
  ghost predicate Believes(w: World, id: Uuid, u: Uuid, status: Status) {
    id in w.agents && u in w.agents[id].nodes && StatusOf(w.agents[id].nodes[u]) == status
  }

  /** Order does matter for younger reports: two runs that differ only in the order of their last two deliveries,
      both taken from the same network, leave the same agent with different beliefs. */
  lemma OrderCanMatter(h: Uuid, u: Uuid, v: Uuid)
    returns (steps: seq<Step>, x: Report, y: Report, run1: seq<World>, run2: seq<World>)
    requires h != u && u != v && h != v
    ensures var steps1, steps2 := steps + [Receive(h, x), Receive(h, y)], steps + [Receive(h, y), Receive(h, x)];
            && IsRun(run1, steps1) && IsRun(run2, steps2) && |run1| == |run2| == |steps| + 3
            && Believes(run1[|steps| + 2], h, u, Status(1, Suspect))
            && Believes(run2[|steps| + 2], h, u, Status(2, Suspect))
  {
    x, y := Rumour(Suspect, u, 1), Rumour(Suspect, u, 2);
    var rec := Record(0, Alive, ZONE, false, None, None);
    assert StatusOf(rec) == Status(0, Alive);
    hide IsRun, Clash, Believe;
    var run;
    run, steps := SuspectedTwice(h, u, v);
    SuspicionsClash(0, x, y);
    var steps1, steps2;
    run1, steps1 := HearBoth(run, steps, h, u, 1, 2, rec);
    run2, steps2 := HearBoth(run, steps, h, u, 2, 1, rec);
  }
}
