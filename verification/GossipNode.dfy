/** One agent's view of the cluster (opsbro/gossip.py): the table of node records and what changes it. */
module GossipNodes {
  import opened Common

  type Uuid = string

  datatype State = Alive | Suspect | Dead | Leave

  /** A record of the table; the times are absent until the agent sets them. */
  datatype Record = Record(incarnation: nat, state: State, zone: string, isProxy: bool,
                           suspectTime: Option<int>, leaveTime: Option<int>)

  /** What travels about a node: a broadcast, or a table entry sent in a push-pull. */
  datatype Report = Report(kind: State, uuid: Uuid, incarnation: nat, zone: string, isProxy: bool)

  /** The zone of the agent, the zones above it, and those directly above it. */
  datatype Scope = Scope(zone: string, tops: set<string>, directTops: set<string>)

  /** An agent as a value; `sent` lists its broadcasts, oldest first, and `raised` tells that the
      "unknown broadcast type" exception went off. */
  datatype Agent = Agent(uuid: Uuid, scope: Scope, incarnation: nat, nodes: map<Uuid, Record>,
                         sent: seq<Report>, raised: bool)

  function ReportOf(kind: State, uuid: Uuid, rec: Record): Report {
    Report(kind, uuid, rec.incarnation, rec.zone, rec.isProxy)
  }

  function Tell(a: Agent, uuid: Uuid, rec: Record): Agent {
    a.(nodes := a.nodes[uuid := rec], sent := a.sent + [ReportOf(rec.state, uuid, rec)])
  }

  /** Raise the agent's own incarnation and broadcast its own record. */
  function Refresh(a: Agent): Agent
    requires a.uuid in a.nodes
  {
    var me := a.nodes[a.uuid].(incarnation := a.incarnation + 1);
    var a' := a.(incarnation := a.incarnation + 1, nodes := a.nodes[a.uuid := me]);
    if me.state in {Alive, Leave} then Tell(a', a.uuid, me) else a'.(raised := true)
  }

  function FreshRecord(r: Report): Record {
    Record(r.incarnation, Alive, r.zone, r.isProxy, None, None)
  }

  /** A node of a zone above is taken in only if it is a proxy. */
  predicate Admitted(scope: Scope, r: Report) {
    r.zone != scope.zone && r.zone in scope.tops ==> r.isProxy
  }

  function SetAlive(a: Agent, r: Report): Agent
    requires a.uuid in a.nodes
  {
    if r.uuid == a.uuid then
      if r.incarnation > a.incarnation then Refresh(a.(incarnation := r.incarnation)) else a
    else if r.uuid !in a.nodes then
      if Admitted(a.scope, r) then Tell(a, r.uuid, FreshRecord(r)) else a
    else if r.incarnation <= a.nodes[r.uuid].incarnation then a
    else Tell(a, r.uuid, FreshRecord(r))
  }

  /** The ping path: the record handed over is the table's own, so its state is overwritten before
      it is compared, and nothing is broadcast. */
  function SetAliveStrong(a: Agent, uuid: Uuid): Agent
    requires a.uuid in a.nodes
  {
    if uuid !in a.nodes then a
    else
      var a' := a.(nodes := a.nodes[uuid := a.nodes[uuid].(state := Alive)]);
      if uuid == a.uuid && a.nodes[uuid].incarnation > a.incarnation
      then Refresh(a'.(incarnation := a.nodes[uuid].incarnation))
      else a'
  }

  function SetSuspect(a: Agent, r: Report, now: int): Agent
    requires a.uuid in a.nodes
  {
    if r.uuid !in a.nodes then a
    else
      var rec := a.nodes[r.uuid];
      if r.incarnation < rec.incarnation || rec.state != Alive then a
      else if r.uuid == a.uuid then Refresh(a)
      else Tell(a, r.uuid, rec.(incarnation := r.incarnation, state := Suspect, suspectTime := Some(now)))
  }

  /** `force` marks a request of the local command line, which may make the agent itself leave. */
  function SetLeave(a: Agent, r: Report, force: bool, now: int): Agent
    requires a.uuid in a.nodes
  {
    if r.uuid !in a.nodes || a.nodes[r.uuid].state == Leave then a
    else
      var rec := a.nodes[r.uuid];
      if r.uuid == a.uuid then
        if r.incarnation != rec.incarnation then a
        else if !force then Refresh(a)
        else Refresh(a.(nodes := a.nodes[a.uuid := rec.(state := Leave)]))
      else if r.incarnation < rec.incarnation then a
      else Tell(a, r.uuid, rec.(incarnation := r.incarnation, state := Leave, leaveTime := Some(now)))
  }

  /** A report arrives alone; what others call dead is only suspected here. */
  function Hear(a: Agent, r: Report, now: int): Agent
    requires a.uuid in a.nodes
  {
    match r.kind
    case Alive => SetAlive(a, r)
    case Suspect => SetSuspect(a, r, now)
    case Dead => SetSuspect(a, r, now)
    case Leave => SetLeave(a, r, false, now)
  }

  /** An entry of somebody else's table arrives in a push-pull. */
  function MergeNode(a: Agent, r: Report, now: int): Agent
    requires a.uuid in a.nodes
  {
    if r.uuid == a.uuid then a
    else if r.zone != a.scope.zone && r.zone in a.scope.tops && r.zone !in a.scope.directTops then a
    else Hear(a, r, now)
  }

  function MergeNodes(a: Agent, rs: seq<Report>, now: int): Agent
    requires a.uuid in a.nodes
    decreases |rs|
  {
    if rs == [] then a
    else
      var a' := MergeNode(a, rs[0], now);
      MergeNodes(a', rs[1..], now)
  }

  /** The least k with 10^k >= n: what ceil(log10(n)) gives for n >= 1. */
  function CeilLog10(n: nat): (k: nat) {
    if n <= 1 then 0 else 1 + CeilLog10((n + 9) / 10)
  }

  function Pow10(k: nat): nat {
    if k == 0 then 1 else 10 * Pow10(k - 1)
  }

  lemma {:induction false} CeilLog10IsLeast(n: nat)
    requires n >= 1
    ensures Pow10(CeilLog10(n)) >= n
    ensures CeilLog10(n) > 0 ==> Pow10(CeilLog10(n) - 1) < n
    decreases n
  {
    if n > 1 {
      CeilLog10IsLeast((n + 9) / 10);
    }
  }

  function SuspectTimeout(tableSize: nat): nat {
    5 * CeilLog10(tableSize + 1)
  }

  predicate Overdue(since: Option<int>, timeout: nat, now: int) {
    since.Some? && since.value < now - timeout
  }

  predicate TurnsDead(rec: Record, timeout: nat, now: int) {
    rec.state == Suspect && Overdue(rec.suspectTime, timeout, now)
  }

  predicate Gone(rec: Record, timeout: nat, now: int) {
    rec.state == Leave && Overdue(rec.leaveTime, 30 * timeout, now)
  }

  function ExpireOne(a: Agent, uuid: Uuid, timeout: nat, now: int): Agent {
    if uuid in a.nodes && TurnsDead(a.nodes[uuid], timeout, now)
    then Tell(a, uuid, a.nodes[uuid].(state := Dead))
    else a
  }

  /** Visit the records in the iteration order `order` of the table. */
  function ExpireAll(a: Agent, order: seq<Uuid>, timeout: nat, now: int): Agent
    decreases |order|
  {
    if order == [] then a else ExpireAll(ExpireOne(a, order[0], timeout, now), order[1..], timeout, now)
  }

  /** Suspects not heard of for too long are dead; nodes that left long ago are forgotten. */
  function LookAtDeads(a: Agent, order: seq<Uuid>, now: int): Agent {
    var timeout := SuspectTimeout(|a.nodes|);
    var a' := ExpireAll(a, order, timeout, now);
    a'.(nodes := map uuid | uuid in a'.nodes && !Gone(a'.nodes[uuid], timeout, now) :: a'.nodes[uuid])
  }

  /** The agent as it runs: its table and counters, updated in place. */
  class Gossip {
    const uuid: Uuid
    const scope: Scope
    var incarnation: nat
    var nodes: map<Uuid, Record>
    var broadcasts: seq<Report>
    var raised: bool

    function Snapshot(): Agent
      reads this
    {
      Agent(uuid, scope, incarnation, nodes, broadcasts, raised)
    }

    predicate Valid()
      reads this
    {
      uuid in nodes
    }

    /** The agent starts with its own record, which it does not broadcast. */
    constructor (uuid: Uuid, scope: Scope, incarnation: nat, isProxy: bool)
      ensures Valid() && Snapshot() == Agent(uuid, scope, incarnation,
                map[uuid := Record(incarnation, Alive, scope.zone, isProxy, None, None)], [], false)
    {
      this.uuid, this.scope, this.incarnation := uuid, scope, incarnation;
      nodes := map[uuid := Record(incarnation, Alive, scope.zone, isProxy, None, None)];
      broadcasts, raised := [], false;
    }

    method IncreaseIncarnationAndBroadcast()
      requires Valid()
      modifies this
      ensures Valid() && Snapshot() == Refresh(old(Snapshot()))
    {
      incarnation := incarnation + 1;
      nodes := nodes[uuid := nodes[uuid].(incarnation := incarnation)];
      var me := nodes[uuid];
      if me.state == Alive {
        broadcasts := broadcasts + [ReportOf(Alive, uuid, me)];
      } else if me.state == Leave {
        broadcasts := broadcasts + [ReportOf(Leave, uuid, me)];
      } else {
        raised := true;
      }
    }

    method AddNewNode(r: Report)
      requires Valid() && r.uuid != uuid && r.uuid !in nodes
      modifies this
      ensures Valid() && Snapshot() == SetAlive(old(Snapshot()), r)
    {
      if r.zone != scope.zone && r.zone in scope.tops && !r.isProxy {
        return;
      }
      nodes := nodes[r.uuid := FreshRecord(r)];
      broadcasts := broadcasts + [ReportOf(Alive, r.uuid, nodes[r.uuid])];
    }

    method ReceiveAlive(r: Report)
      requires Valid()
      modifies this
      ensures Valid() && Snapshot() == SetAlive(old(Snapshot()), r)
    {
      if r.uuid == uuid {
        if r.incarnation > incarnation {
          incarnation := r.incarnation;
          IncreaseIncarnationAndBroadcast();
        }
        return;
      }
      if r.uuid !in nodes {
        AddNewNode(r);
        return;
      }
      var prev := nodes[r.uuid];
      if r.incarnation <= prev.incarnation {
        return;
      }
      nodes := nodes[r.uuid := FreshRecord(r)];
      broadcasts := broadcasts + [ReportOf(Alive, r.uuid, nodes[r.uuid])];
    }

    /** A ping of the record `target` of the table was answered. */
    method PingAnswered(target: Uuid)
      requires Valid()
      modifies this
      ensures Valid() && Snapshot() == SetAliveStrong(old(Snapshot()), target)
    {
      if target !in nodes {
        return;
      }
      nodes := nodes[target := nodes[target].(state := Alive)];
      if target == uuid {
        if nodes[target].incarnation > incarnation {
          incarnation := nodes[target].incarnation;
          IncreaseIncarnationAndBroadcast();
        }
        return;
      }
      var prev := nodes[target];
      var changeState := prev.state != Alive;
      if changeState || nodes[target].incarnation > prev.incarnation {
        assert false;
      }
    }

    method ReceiveSuspect(r: Report, now: int)
      requires Valid()
      modifies this
      ensures Valid() && Snapshot() == SetSuspect(old(Snapshot()), r, now)
    {
      if r.uuid !in nodes {
        return;
      }
      var node := nodes[r.uuid];
      if r.incarnation < node.incarnation {
        return;
      }
      if node.state != Alive {
        return;
      }
      if r.uuid == uuid {
        IncreaseIncarnationAndBroadcast();
        return;
      }
      nodes := nodes[r.uuid := node.(incarnation := r.incarnation, state := Suspect, suspectTime := Some(now))];
      broadcasts := broadcasts + [ReportOf(Suspect, r.uuid, nodes[r.uuid])];
    }

    method ReceiveLeave(r: Report, force: bool, now: int)
      requires Valid()
      modifies this
      ensures Valid() && Snapshot() == SetLeave(old(Snapshot()), r, force, now)
    {
      if r.uuid !in nodes {
        return;
      }
      var node := nodes[r.uuid];
      if node.state == Leave {
        return;
      }
      if r.uuid == uuid {
        if r.incarnation != node.incarnation {
          return;
        }
      } else if r.incarnation < node.incarnation {
        return;
      }
      if r.uuid == uuid {
        if !force {
          IncreaseIncarnationAndBroadcast();
          return;
        }
        nodes := nodes[uuid := node.(state := Leave)];
        IncreaseIncarnationAndBroadcast();
        return;
      }
      nodes := nodes[r.uuid := node.(incarnation := r.incarnation, state := Leave, leaveTime := Some(now))];
      broadcasts := broadcasts + [ReportOf(Leave, r.uuid, nodes[r.uuid])];
    }

    method ManageMessage(r: Report, now: int)
      requires Valid()
      modifies this
      ensures Valid() && Snapshot() == Hear(old(Snapshot()), r, now)
    {
      match r.kind {
        case Alive => ReceiveAlive(r);
        case Suspect => ReceiveSuspect(r, now);
        case Dead => ReceiveSuspect(r, now);
        case Leave => ReceiveLeave(r, false, now);
      }
    }

    /** Merge somebody else's table, entry by entry. */
    method MergeTable(rs: seq<Report>, now: int)
      requires Valid()
      modifies this
      ensures Valid() && Snapshot() == MergeNodes(old(Snapshot()), rs, now)
    {
      for i := 0 to |rs|
        invariant Valid()
        invariant MergeNodes(Snapshot(), rs[i..], now) == MergeNodes(old(Snapshot()), rs, now)
      {
        var r := rs[i];
        if r.uuid == uuid {
          continue;
        }
        if r.zone != scope.zone && r.zone in scope.tops && r.zone !in scope.directTops {
          continue;
        }
        ManageMessage(r, now);
      }
    }

    method DeclareDead(order: seq<Uuid>, suspectTimeout: nat, now: int)
      requires Valid() && forall u :: u in order ==> u in nodes
      modifies this`nodes, this`broadcasts
      ensures Snapshot() == ExpireAll(old(Snapshot()), order, suspectTimeout, now)
      ensures nodes.Keys == old(nodes).Keys
    {
      for i := 0 to |order|
        invariant nodes.Keys == old(nodes).Keys
        invariant ExpireAll(Snapshot(), order[i..], suspectTimeout, now)
               == ExpireAll(old(Snapshot()), order, suspectTimeout, now)
      {
        var u := order[i];
        if nodes[u].state == Suspect && nodes[u].suspectTime.GetOr(now) < now - suspectTimeout {
          nodes := nodes[u := nodes[u].(state := Dead)];
          broadcasts := broadcasts + [ReportOf(Dead, u, nodes[u])];
        }
      }
    }

    method ForgetLeft(order: seq<Uuid>, suspectTimeout: nat, now: int)
      requires forall u :: u in order <==> u in nodes
      modifies this`nodes
      ensures nodes == map u | u in old(nodes) && !Gone(old(nodes)[u], suspectTimeout, now) :: old(nodes)[u]
    {
      var toDelete: set<Uuid> := {};
      for i := 0 to |order|
        invariant toDelete == set u | u in order[..i] && Gone(nodes[u], suspectTimeout, now)
      {
        var u := order[i];
        if nodes[u].state == Leave && nodes[u].leaveTime.GetOr(now) < now - 30 * suspectTimeout {
          toDelete := toDelete + {u};
        }
      }
      nodes := nodes - toDelete;
    }

    /** Let suspicions and departures age; `order` is the iteration order of the table. */
    method Age(order: seq<Uuid>, now: int)
      requires Valid() && forall u :: u in order <==> u in nodes
      modifies this`nodes, this`broadcasts
      ensures Snapshot() == LookAtDeads(old(Snapshot()), order, now)
    {
      var suspectTimeout := SuspectTimeout(|nodes|);
      DeclareDead(order, suspectTimeout, now);
      ForgetLeft(order, suspectTimeout, now);
    }
  }
}
