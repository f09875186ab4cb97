/** The key-value store of a node and the copies it keeps on its replicas (opsbro/kv.py). */
module Replication {
  import opened Common

  type Name = string

  datatype Meta = Meta(modifyIndex: nat, modifyTime: int)

  /** A value waiting to be sent to the replicas, with the metadata it was stored with. */
  datatype Pending = Pending(value: string, meta: Meta)

  datatype Store = Store(data: map<string, string>, metas: map<string, Meta>, backlog: map<string, Pending>)

  const EMPTY_STORE := Store(map[], map[], map[])

  function Version(s: Store, key: string): nat {
    if key in s.metas then s.metas[key].modifyIndex else 0
  }

  function Put(s: Store, key: string, value: string, now: int): Store {
    var index := if key in s.metas then s.metas[key].modifyIndex else 0;
    s.(metas := s.metas[key := Meta(index + 1, now)], data := s.data[key := value])
  }

  /** Store a key that is `mine`, was forwarded to me, or is forced on me by its master with `meta`;
      a key of another node is relayed and changes nothing here. */
  function PutKey(s: Store, key: string, value: string, mine: bool, force: bool, forwarded: bool,
                  meta: Option<Meta>, now: int): (s': Store)
    ensures !mine && !force && !forwarded ==> s' == s
    ensures mine || force || forwarded ==>
              && key in s'.data && s'.data == s.data[key := value]
              && key in s'.metas && s'.metas == s.metas[key := s'.metas[key]]
              && (meta.Some? ==> s'.metas[key] == meta.value)
              && (meta.None? ==> s'.metas[key].modifyIndex == Version(s, key) + 1 && s'.metas[key].modifyTime == now)
              && s'.backlog == if force then s.backlog else s.backlog[key := Pending(value, s'.metas[key])]
  {
    if !mine && !force && !forwarded then s
    else
      var s1 := Put(s, key, value, now);
      var s2 := if meta.Some? then s1.(metas := s1.metas[key := meta.value]) else s1;
      if force then s2 else s2.(backlog := s2.backlog[key := Pending(value, s2.metas[key])])
  }

  class KVBackend {
    var db: map<string, string>
    var metas: map<string, Meta>
    var replicationBacklog: map<string, Pending>

    function Snapshot(): Store
      reads this
    {
      Store(db, metas, replicationBacklog)
    }

    constructor ()
      ensures Snapshot() == EMPTY_STORE
    {
      db, metas, replicationBacklog := map[], map[], map[];
    }

    method PutMeta(key: string, meta: Meta)
      modifies this`metas
      ensures metas == old(metas)[key := meta]
    {
      metas := metas[key := meta];
    }

    method PutValue(key: string, value: string, now: int)
      modifies this`metas, this`db
      ensures Snapshot() == Put(old(Snapshot()), key, value, now)
    {
      var meta := if key in metas then metas[key] else Meta(0, 0);
      meta := meta.(modifyIndex := meta.modifyIndex + 1);
      meta := meta.(modifyTime := now);
      PutMeta(key, meta);
      db := db[key := value];
    }

    /** `relayed` tells that the key belongs to another node and the request goes there. */
    method StoreKey(key: string, value: string, mine: bool, force: bool, forwarded: bool, meta: Option<Meta>, now: int)
      returns (relayed: bool)
      modifies this
      ensures Snapshot() == PutKey(old(Snapshot()), key, value, mine, force, forwarded, meta, now)
      ensures relayed <==> !mine && !force && !forwarded
    {
      if mine || force || forwarded {
        PutValue(key, value, now);
        if meta.Some? {
          PutMeta(key, meta.value);
        }
        if force {
          return false;
        }
        replicationBacklog := replicationBacklog[key := Pending(value, metas[key])];
        return false;
      }
      return true;
    }

    /** The replication thread takes the whole backlog and leaves an empty one behind. */
    method TakeBacklog() returns (batch: map<string, Pending>)
      modifies this`replicationBacklog
      ensures batch == old(replicationBacklog)
      ensures Snapshot() == old(Snapshot()).(backlog := map[])
    {
      batch := replicationBacklog;
      replicationBacklog := map[];
    }
  }

  // ---------------------------------------------------------------- a master and its replicas

  /** `batch` is what the replication thread took last, `todo` the pairs of key and replica still to be sent. */
  datatype World = World(master: Store, replicas: map<Name, Store>,
                           batch: map<string, Pending>, todo: set<(string, Name)>)

  datatype Step =
    | Write(key: string, value: string, forwarded: bool, now: int)
    | Take
    | Send(to: (string, Name), now: int)

  function Pairs(keys: set<string>, names: set<Name>): (ps: set<(string, Name)>)
    ensures forall p :: p in ps <==> p.0 in keys && p.1 in names
  {
    set k, r | k in keys && r in names :: (k, r)
  }

  function Next(w: World, step: Step): World {
    match step
    case Write(key, value, forwarded, now) =>
      w.(master := PutKey(w.master, key, value, !forwarded, false, forwarded, None, now))
    case Take =>
      if w.todo != {} then w
      else w.(batch := w.master.backlog, master := w.master.(backlog := map[]),
              todo := Pairs(w.master.backlog.Keys, w.replicas.Keys))
    case Send(to, now) =>
      if to !in w.todo || to.0 !in w.batch || to.1 !in w.replicas then w
      else
        var p := w.batch[to.0];
        w.(todo := w.todo - {to},
           replicas := w.replicas[to.1 :=
               PutKey(w.replicas[to.1], to.0, p.value, false, true, false, Some(p.meta), now)])
  }

  function Init(names: set<Name>): World {
    World(EMPTY_STORE, map r | r in names :: EMPTY_STORE, map[], {})
  }

  function Run(w: World, steps: seq<Step>): World
    decreases |steps|
  {
    if steps == [] then w else Run(Next(w, steps[0]), steps[1..])
  }

  ghost predicate Holds(s: Store, key: string, p: Pending) {
    key in s.data && key in s.metas && s.data[key] == p.value && s.metas[key] == p.meta
  }

  function Latest(w: World, key: string): Pending
    requires key in w.master.data && key in w.master.metas
  {
    Pending(w.master.data[key], w.master.metas[key])
  }

  /** The latest value of the key is waiting, on its way to `r`, or there. */
  ghost predicate Accounted(w: World, key: string, r: Name)
    requires key in w.master.data && key in w.master.metas && r in w.replicas
  {
    || (key in w.master.backlog && w.master.backlog[key] == Latest(w, key))
    || (key !in w.master.backlog && (key, r) in w.todo && key in w.batch && w.batch[key] == Latest(w, key))
    || (key !in w.master.backlog && (key, r) !in w.todo && Holds(w.replicas[r], key, Latest(w, key)))
  }

  ghost predicate MasterOk(w: World) {
    && w.master.data.Keys == w.master.metas.Keys
    && (forall k :: k in w.master.backlog ==> Holds(w.master, k, w.master.backlog[k]))
    && (forall k :: k in w.batch ==> k in w.master.data && w.batch[k].meta.modifyIndex <= Version(w.master, k))
  }

  ghost predicate AllAccounted(w: World) {
    forall k, r :: k in w.master.data && k in w.master.metas && r in w.replicas ==> Accounted(w, k, r)
  }

  ghost predicate ReplicasOk(w: World) {
    && (forall k, r :: r in w.replicas ==> Version(w.replicas[r], k) <= Version(w.master, k))
    && (forall p :: p in w.todo ==>
          && p.0 in w.batch && p.1 in w.replicas
          && Version(w.replicas[p.1], p.0) <= w.batch[p.0].meta.modifyIndex)
  }

  ghost predicate Inv(w: World) {
    MasterOk(w) && AllAccounted(w) && ReplicasOk(w)
  }

  lemma WriteKeeps(w: World, key: string, value: string, forwarded: bool, now: int)
    requires Inv(w)
    ensures Inv(Next(w, Write(key, value, forwarded, now)))
  {
    var w' := Next(w, Write(key, value, forwarded, now));
    forall k, r | k in w'.master.data && r in w'.replicas ensures Accounted(w', k, r) {
      if k != key { assert Accounted(w, k, r); }
    }
    assert w'.master.data.Keys == w.master.data.Keys + {key};
    assert forall k :: Version(w.master, k) <= Version(w'.master, k);
  }

  lemma TakeKeepsReplicas(w: World)
    requires MasterOk(w) && ReplicasOk(w)
    ensures MasterOk(Next(w, Take)) && ReplicasOk(Next(w, Take))
  {
    hide Pairs;
    var w' := Next(w, Take);
    if w.todo == {} {
      forall k | k in w'.batch
        ensures k in w'.master.data && w'.batch[k].meta.modifyIndex == Version(w'.master, k)
      {
        assert Holds(w.master, k, w.master.backlog[k]);
      }
      forall p | p in w'.todo
        ensures p.0 in w'.batch && p.1 in w'.replicas
        ensures Version(w'.replicas[p.1], p.0) <= w'.batch[p.0].meta.modifyIndex
      {
        assert Version(w.replicas[p.1], p.0) <= Version(w.master, p.0);
      }
      forall k, r | r in w'.replicas ensures Version(w'.replicas[r], k) <= Version(w'.master, k) {
        assert Version(w.replicas[r], k) <= Version(w.master, k);
      }
    }
  }

  lemma TakeKeeps(w: World)
    requires Inv(w)
    ensures Inv(Next(w, Take))
  {
    hide Pairs, MasterOk, ReplicasOk;
    TakeKeepsReplicas(w);
    var w' := Next(w, Take);
    if w.todo == {} {
      forall k, r | k in w'.master.data && k in w'.master.metas && r in w'.replicas ensures Accounted(w', k, r) {
        assert Accounted(w, k, r);
        assert (k, r) in w'.todo <==> k in w.master.backlog;
      }
    } else {
      assert w' == w;
    }
  }

  lemma SendKeeps(w: World, to: (string, Name), now: int)
    requires Inv(w)
    ensures Inv(Next(w, Send(to, now)))
    ensures forall k, r :: r in w.replicas ==>
        Version(w.replicas[r], k) <= Version(Next(w, Send(to, now)).replicas[r], k)
  {
    var w' := Next(w, Send(to, now));
    if to in w.todo {
      forall k, r | k in w'.master.data && r in w'.replicas ensures Accounted(w', k, r) {
        assert Accounted(w, k, r);
      }
    }
  }

  /** The copies a replica holds never go back to an older version. */
  lemma NextKeeps(w: World, step: Step)
    requires Inv(w)
    ensures Inv(Next(w, step)) && Next(w, step).replicas.Keys == w.replicas.Keys
    ensures forall k, r :: r in w.replicas ==> Version(w.replicas[r], k) <= Version(Next(w, step).replicas[r], k)
  {
    match step {
      case Write(key, value, forwarded, now) => WriteKeeps(w, key, value, forwarded, now);
      case Take => TakeKeeps(w);
      case Send(to, now) => SendKeeps(w, to, now);
    }
  }

  lemma {:induction false} RunKeeps(w: World, steps: seq<Step>)
    requires Inv(w)
    ensures Inv(Run(w, steps)) && Run(w, steps).replicas.Keys == w.replicas.Keys
    ensures forall k, r :: r in w.replicas ==> Version(w.replicas[r], k) <= Version(Run(w, steps).replicas[r], k)
    decreases |steps|
  {
    if steps != [] {
      NextKeeps(w, steps[0]);
      RunKeeps(Next(w, steps[0]), steps[1..]);
    }
  }

  /** No write is ever forgotten: in every reachable state each replica holds the master's value and metadata
      of a key, or they are on their way to it, or waiting in the backlog. */
  lemma NoWriteIsForgotten(names: set<Name>, steps: seq<Step>, key: string, r: Name)
    requires r in names && key in Run(Init(names), steps).master.data
    ensures var w := Run(Init(names), steps);
            && key in w.master.metas && r in w.replicas && Accounted(w, key, r)
            && Version(w.replicas[r], key) <= Version(w.master, key)
  {
    RunKeeps(Init(names), steps);
    assert key in Run(Init(names), steps).master.data.Keys;
    assert r in Init(names).replicas.Keys;
  }

  /** With nothing waiting and nothing on its way, every replica is an exact copy of what the master holds. */
  lemma QuietReplicasAgree(names: set<Name>, steps: seq<Step>, r: Name)
    requires var w := Run(Init(names), steps); r in names && w.master.backlog == map[] && w.todo == {}
    ensures var w := Run(Init(names), steps);
            r in w.replicas
            && forall key :: key in w.master.data ==> key in w.master.metas && Holds(w.replicas[r], key, Latest(w, key))
  {
    var w := Run(Init(names), steps);
    RunKeeps(Init(names), steps);
    assert r in Init(names).replicas.Keys;
    forall key | key in w.master.data ensures key in w.master.metas && Holds(w.replicas[r], key, Latest(w, key)) {
      NoWriteIsForgotten(names, steps, key, r);
    }
  }

  // ---------------------------------------------------------------- the latest version is that of the last write

  /** How often the key was written. */
  function Writes(steps: seq<Step>, key: string): nat {
    if steps == [] then 0
    else
      var last := steps[|steps| - 1];
      Writes(steps[..|steps| - 1], key) + if last.Write? && last.key == key then 1 else 0
  }

  /** The last step that writes the key. */
  function LastWrite(steps: seq<Step>, key: string): (step: Step)
    requires Writes(steps, key) > 0
    ensures step.Write? && step.key == key
  {
    var last := steps[|steps| - 1];
    if last.Write? && last.key == key then last else LastWrite(steps[..|steps| - 1], key)
  }

  lemma {:induction false} RunPush(w: World, steps: seq<Step>, step: Step)
    ensures Run(w, steps + [step]) == Next(Run(w, steps), step)
    decreases |steps|
  {
    var all := steps + [step];
    if steps != [] {
      assert all[1..] == steps[1..] + [step];
      RunPush(Next(w, steps[0]), steps[1..], step);
    } else {
      assert all[1..] == [];
    }
  }

  ghost predicate HasWritten(s: Store, steps: seq<Step>, key: string) {
    && (key in s.data <==> Writes(steps, key) > 0) && (key in s.metas <==> Writes(steps, key) > 0)
    && (Writes(steps, key) > 0 ==>
          && s.data[key] == LastWrite(steps, key).value
          && s.metas[key] == Meta(Writes(steps, key), LastWrite(steps, key).now))
  }

  lemma StepHasWritten(w: World, front: seq<Step>, step: Step, key: string)
    requires HasWritten(w.master, front, key)
    ensures HasWritten(Next(w, step).master, front + [step], key)
  {
    assert (front + [step])[..|front|] == front;
  }

  /** The master has what was written last, at the time of that write, and its version counts the writes. */
  lemma {:induction false} MasterHasLastWrite(names: set<Name>, steps: seq<Step>, key: string)
    ensures HasWritten(Run(Init(names), steps).master, steps, key)
    decreases |steps|
  {
    if steps != [] {
      var front, last := steps[..|steps| - 1], steps[|steps| - 1];
      assert steps == front + [last];
      MasterHasLastWrite(names, front, key);
      hide Run, Init, Next, HasWritten;
      RunPush(Init(names), front, last);
      StepHasWritten(Run(Init(names), front), front, last, key);
    }
  }

  /** So has every replica, once nothing is pending. */
  lemma QuietReplicasHaveLastWrite(names: set<Name>, steps: seq<Step>, r: Name, key: string)
    requires var w := Run(Init(names), steps); r in names && w.master.backlog == map[] && w.todo == {}
    requires Writes(steps, key) > 0
    ensures var w := Run(Init(names), steps);
            r in w.replicas && Holds(w.replicas[r], key, Pending(LastWrite(steps, key).value,
                                                                 Meta(Writes(steps, key), LastWrite(steps, key).now)))
  {
    hide Run, Init, Writes, LastWrite;
    MasterHasLastWrite(names, steps, key);
    QuietReplicasAgree(names, steps, r);
  }

  // ---------------------------------------------------------------- nothing waits for ever

  lemma {:induction false} RunOn(w: World, steps: seq<Step>, more: seq<Step>)
    ensures Run(w, steps + more) == Run(Run(w, steps), more)
    decreases |steps|
  {
    if steps == [] {
      assert [] + more == more;
    } else {
      assert (steps + more)[1..] == steps[1..] + more;
      RunOn(Next(w, steps[0]), steps[1..], more);
    }
  }

  /** Sending one pair after the other sends all that was to be sent, and touches neither the master nor what waits. */
  lemma {:induction false} SendAll(w: World, now: int) returns (steps: seq<Step>)
    requires Inv(w)
    ensures Inv(Run(w, steps)) && Run(w, steps).todo == {} && Run(w, steps).master == w.master
    decreases |w.todo|
  {
    if w.todo == {} {
      steps := [];
    } else {
      var pair :| pair in w.todo;
      var step := Send(pair, now);
      SendKeeps(w, pair, now);
      var w' := Next(w, step);
      assert w'.todo == w.todo - {pair} && w'.master == w.master;
      hide Inv, Next;
      var rest := SendAll(w', now);
      steps := [step] + rest;
      assert steps[1..] == rest;
    }
  }

  lemma InitIsOk(names: set<Name>)
    ensures Inv(Init(names))
  {
  }

  lemma RunFirst(w: World, step: Step, steps: seq<Step>)
    ensures Run(w, [step] + steps) == Run(Next(w, step), steps)
  {
    assert ([step] + steps)[1..] == steps;
  }

  /** First what is on its way, then what waits. */
  lemma Flush(w: World, now: int) returns (more: seq<Step>)
    requires Inv(w)
    ensures Run(w, more).master == w.master.(backlog := map[]) && Run(w, more).todo == {}
  {
    var first := SendAll(w, now);
    var w1 := Run(w, first);
    TakeKeeps(w1);
    assert Next(w1, Take).master == w.master.(backlog := map[]);
    hide Run, Inv, Next;
    var second := SendAll(Next(w1, Take), now);
    more := first + ([Take] + second);
    RunOn(w, first, [Take] + second);
    RunFirst(w1, Take, second);
  }

  /** From every reachable state the pending writes can be sent out. The master keeps what it has, and every replica
      ends up with it. */
  lemma PendingWritesCanBeSent(names: set<Name>, steps: seq<Step>, now: int) returns (more: seq<Step>)
    ensures var w, w' := Run(Init(names), steps), Run(Init(names), steps + more);
            && w'.master == w.master.(backlog := map[]) && w'.todo == {}
            && forall r, key :: r in names && key in w.master.data ==>
                 r in w'.replicas && key in w.master.metas && Holds(w'.replicas[r], key, Latest(w, key))
  {
    hide Run, Inv, Holds, Init, Next;
    InitIsOk(names);
    RunKeeps(Init(names), steps);
    var w := Run(Init(names), steps);
    more := Flush(w, now);
    RunOn(Init(names), steps, more);
    var w' := Run(Init(names), steps + more);
    forall r, key | r in names && key in w.master.data
      ensures r in w'.replicas && key in w.master.metas && Holds(w'.replicas[r], key, Latest(w, key))
    {
      QuietReplicasAgree(names, steps + more, r);
    }
  }
}
